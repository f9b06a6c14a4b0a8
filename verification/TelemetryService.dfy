/** The imperative service of server/src/services/telemetry-service.js with its alarm table. */
module TelemetryService {
  import opened Bytes
  import opened Alarms
  import opened AlarmLaws
  import Elock

  class TelemetryService {
    var rows: seq<Row>
    var clock: nat

    constructor ()
      ensures View() == EMPTY && Invariant()
    {
      rows := [];
      clock := 0;
    }

    function View(): Store
      reads this
    {
      Store(rows, clock)
    }

    ghost predicate Invariant()
      reads this
    {
      Valid(View())
    }

    /** insertAlarm by way of raise. */
    method Raise(key: Key)
      modifies this
      ensures rows == old(rows) + [Row(key, old(clock), None)] && clock == old(clock)
    {
      rows := rows + [Row(key, clock, None)];
    }

    /** clearAlarm: the row with this number, if there is one. */
    method ClearAlarm(id: nat)
      modifies this
      ensures rows == if id < |old(rows)| then old(rows)[id := Cleared(old(rows)[id], old(clock))] else old(rows)
      ensures clock == old(clock)
    {
      if id < |rows| {
        rows := rows[id := Cleared(rows[id], clock)];
      }
    }

    /** The first loop of reconcile: raises every reported type that is not active. */
    method RaiseMissing(device: Device, source: Source, current: seq<string>, active: seq<nat>)
      requires forall i :: i in active <==> 0 <= i < |rows| && rows[i].Active() && Of(rows[i].key, device, source)
      modifies this
      ensures clock == old(clock)
      ensures rows
          == old(rows) + RaiseKeys(device, source, clock, Missing(ActiveKeys(old(rows)), device, source, current))
    {
      hide ActiveKeys, Missing;
      TypeIsActive(rows, active, device, source, "");
      var activeTypes := set k | 0 <= k < |active| :: rows[active[k]].key.kind;
      ghost var keys := ActiveKeys(rows);
      assert current[..0] == [];
      MissingNone(keys, device, source);
      for i := 0 to |current|
        invariant clock == old(clock)
        invariant rows == old(rows) + RaiseKeys(device, source, clock, Missing(keys, device, source, current[..i]))
      {
        MissingNext(keys, device, source, current, i);
        TypeIsActive(old(rows), active, device, source, current[i]);
        if current[i] !in activeTypes {
          Raise(Key(device, source, current[i]));
        }
      }
      assert current[..|current|] == current;
    }

    /** The second loop of reconcile: clears every active row whose type is no longer reported. */
    method ClearVanished(active: seq<nat>, current: seq<string>)
      requires forall k :: 0 <= k < |active| ==> active[k] < |rows|
      modifies this
      ensures clock == old(clock)
      ensures rows == ClearedSoFar(old(rows), active, clock, current)
    {
      assert ClearedSoFar(rows, [], clock, current) == rows;
      assert active[..0] == [];
      for k := 0 to |active|
        invariant clock == old(clock)
        invariant rows == ClearedSoFar(old(rows), active[..k], clock, current)
      {
        ClearNext(old(rows), active, k, clock, current);
        if rows[active[k]].key.kind !in current {
          ClearAlarm(active[k]);
        }
      }
      assert active[..|active|] == active;
    }

    /** reconcile. */
    method Reconcile(device: Device, source: Source, current: seq<string>)
      requires Invariant() && Reportable(source, current)
      modifies this
      ensures View() == Reconciled(old(View()), device, source, current)
      ensures Invariant()
    {
      hide Valid, Reportable, ClearedSoFar, ClearKeys, RaiseKeys, Missing, Vanished, ActiveKeys, ActiveAlarms;
      ghost var before := View();
      ReconcileKeepsValid(before, device, source, current);
      ValidIsComplete(before, device);
      var all := ActiveAlarms(rows, device);
      var active := OfSource(rows, all, source);
      OfSourceIs(rows, all, source);
      clock := clock + 1;
      RaiseMissing(device, source, current, active);
      ghost var raised := RaiseKeys(device, source, clock, Missing(ActiveKeys(before.rows), device, source, current));
      ClearVanished(active, current);
      ClearedPrefix(before.rows, raised, active, clock, current);
      ClearedAll(before.rows, active, clock, device, source, current);
    }

    /** onLockStatus, as far as the alarm table goes. */
    method OnLockStatus(device: Device, status: Option<byte>, voltage: Option<byte>)
      requires Invariant()
      modifies this
      ensures View() == StatusTaken(old(View()), device, status, voltage) && Invariant()
    {
      hide Valid, Reportable, Reconciled;
      if status.Some? {
        StatusReportable(status.value);
        Reconcile(device, LockStatus, LockStatusKinds(status.value));
      }
      if voltage.Some? {
        VoltageReportable(voltage.value);
        Reconcile(device, Voltage, VoltageKinds(voltage.value));
      }
    }

    /** onLocation, as far as the alarm table goes. */
    method OnLocation(device: Device, flags: nat, e7: Option<nat>, lockStatus: byte)
      requires Invariant()
      modifies this
      ensures View() == Taken(old(View()), device, LocationReport(flags, e7, lockStatus)) && Invariant()
    {
      hide Valid, Reportable, Reconciled, StatusTaken;
      var kinds := DecodeAlarmFlags(flags);
      FlagsReportable(flags);
      Reconcile(device, LocationFlags, kinds);
      if e7.Some? {
        E7Reportable(e7.value);
        Reconcile(device, E7Status, E7KindsFrom(e7.value, 0));
      }
      if lockStatus >= 0x10 {
        OnLockStatus(device, Some(lockStatus), None);
      }
    }

    /** The event alarm of a lock upload. */
    method RaiseUpload(device: Device, kind: string)
      requires Invariant() && kind in Kinds(LockUpload)
      modifies this
      ensures View() == Uploaded(old(View()), device, kind) && Invariant()
    {
      hide Valid, ActiveKeys, ActiveAlarms, Kinds;
      UploadKeeps(View(), device, kind);
      ValidIsComplete(View(), device);
      var all := ActiveAlarms(rows, device);
      UploadIsActive(rows, all, device, kind);
      var active := exists k ::
        0 <= k < |all| && rows[all[k]].key.source == LockUpload && rows[all[k]].key.kind == kind;
      if !active {
        clock := clock + 1;
        Raise(Key(device, LockUpload, kind));
      }
    }

    /** onLockUpload, as far as the alarm table goes. */
    method OnLockUpload(device: Device, status: byte, voltage: byte, alarm: Option<Elock.UploadAlarm>)
      requires Invariant()
      modifies this
      ensures View() == Taken(old(View()), device, UploadReport(status, voltage, alarm)) && Invariant()
    {
      hide Valid, StatusTaken, Kinds, Uploaded;
      OnLockStatus(device, Some(status), Some(voltage));
      if alarm.Some? {
        UploadKindKnown(alarm.value);
        RaiseUpload(device, UploadKind(alarm.value));
      }
    }

    /** clearByCommand. */
    method ClearByCommand(device: Device)
      requires Invariant()
      modifies this
      ensures View() == Taken(old(View()), device, ClearSucceeded) && Invariant()
    {
      hide Valid, CommandCleared, CommandClearedSoFar, ActiveAlarms, Cleared;
      ghost var before := View();
      CommandClearKeeps(before, device);
      ValidIsComplete(before, device);
      var all := ActiveAlarms(rows, device);
      clock := clock + 1;
      NothingClearedYet(rows, device, clock);
      var k := 0;
      while k < |all|
        invariant 0 <= k <= |all| && clock == before.clock + 1
        invariant |rows| == |before.rows|
        invariant CommandClearedSoFar(before.rows, rows, all[..k], device, clock)
      {
        var id := all[k];
        assert all[..k + 1] == all[..k] + [id];
        CommandClearedNext(before.rows, rows, all[..k], id, device, clock);
        if rows[id].key.source == LockUpload || rows[id].key.source == LockStatus {
          ClearAlarm(id);
        }
        k := k + 1;
      }
      assert all[..|all|] == all;
      CommandClearedIs(before, rows, all, device);
    }
  }

  /** The loop of clearByCommand after it has looked at the rows in `done`. */
  ghost predicate CommandClearedSoFar(before: seq<Row>, rows: seq<Row>, done: seq<nat>, device: Device, clock: nat)
  {
    && |rows| == |before|
    && forall i :: 0 <= i < |rows| ==>
         rows[i] == if i in done && ClearedByCommand(before[i].key, device) then Cleared(before[i], clock)
           else before[i]
  }

  lemma NothingClearedYet(rows: seq<Row>, device: Device, clock: nat)
    ensures CommandClearedSoFar(rows, rows, [], device, clock)
  {
  }

  lemma CommandClearedNext(before: seq<Row>, rows: seq<Row>, done: seq<nat>, id: nat, device: Device, clock: nat)
    requires CommandClearedSoFar(before, rows, done, device, clock) && id < |before| && before[id].key.device == device
    ensures rows[id].key == before[id].key
    ensures
      var source := before[id].key.source;
      var after := if source == LockUpload || source == LockStatus then rows[id := Cleared(rows[id], clock)] else rows;
      CommandClearedSoFar(before, after, done + [id], device, clock)
  {
  }

  // ---------- steps of the loops ----------

  function OfSource(rows: seq<Row>, ids: seq<nat>, source: Source): (r: seq<nat>)
    requires forall k :: 0 <= k < |ids| ==> ids[k] < |rows|
    ensures forall k :: 0 <= k < |r| ==> r[k] < |rows|
  {
    if ids == [] then []
    else (if rows[ids[0]].key.source == source then [ids[0]] else []) + OfSource(rows, ids[1..], source)
  }

  lemma {:induction false} OfSourceIs(rows: seq<Row>, ids: seq<nat>, source: Source)
    requires forall k :: 0 <= k < |ids| ==> ids[k] < |rows|
    ensures forall i ::
              i in OfSource(rows, ids, source)
              <==> i in ids && 0 <= i < |rows| && rows[i].key.source == source
  {
    if ids != [] {
      OfSourceIs(rows, ids[1..], source);
      assert ids == [ids[0]] + ids[1..];
    }
  }

  lemma {:induction false} MissingAppend(active: set<Key>, device: Device, source: Source, kinds: seq<string>,
                                         last: string)
    ensures Missing(active, device, source, kinds + [last])
         == Missing(active, device, source, kinds) + if Key(device, source, last) in active then [] else [last]
  {
    if kinds == [] {
      assert kinds + [last] == [last] && [last][1..] == [];
    } else {
      assert (kinds + [last])[1..] == kinds[1..] + [last];
      MissingAppend(active, device, source, kinds[1..], last);
    }
  }

  lemma MissingNext(active: set<Key>, device: Device, source: Source, current: seq<string>, i: nat)
    requires i < |current|
    ensures Missing(active, device, source, current[..i + 1])
         == Missing(active, device, source, current[..i]) + if Key(device, source, current[i]) in active then []
           else [current[i]]
  {
    assert current[..i + 1] == current[..i] + [current[i]];
    MissingAppend(active, device, source, current[..i], current[i]);
  }

  lemma TypeIsActive(rows: seq<Row>, active: seq<nat>, device: Device, source: Source, kind: string)
    requires forall i :: i in active <==> 0 <= i < |rows| && rows[i].Active() && Of(rows[i].key, device, source)
    ensures forall k :: 0 <= k < |active| ==> active[k] < |rows|
    ensures Key(device, source, kind) in ActiveKeys(rows)
        <==> exists k :: 0 <= k < |active| && rows[active[k]].key.kind == kind
  {
    assert forall k :: 0 <= k < |active| ==> active[k] in active;
    InActive(rows, Key(device, source, kind));
    if Key(device, source, kind) in ActiveKeys(rows) {
      var i :| 0 <= i < |rows| && rows[i].Active() && rows[i].key == Key(device, source, kind);
      var k :| 0 <= k < |active| && active[k] == i;
    }
  }

  /** The table after the given rows were looked at by the clearing loop. */
  function ClearedSoFar(rows: seq<Row>, done: seq<nat>, now: nat, current: seq<string>): (out: seq<Row>)
    ensures |out| == |rows|
  {
    seq(|rows|, i requires 0 <= i < |rows| => if i in done && rows[i].key.kind !in current then Cleared(rows[i], now)
      else rows[i])
  }

  lemma ClearNext(rows: seq<Row>, active: seq<nat>, k: nat, now: nat, current: seq<string>)
    requires k < |active| && active[k] < |rows|
    ensures
      var id, before := active[k], ClearedSoFar(rows, active[..k], now, current);
      && before[id].key == rows[id].key
      && ClearedSoFar(rows, active[..k + 1], now, current)
         == if rows[id].key.kind !in current then before[id := Cleared(before[id], now)] else before
  {
    assert active[..k + 1] == active[..k] + [active[k]];
  }

  lemma ClearedPrefix(rows: seq<Row>, raised: seq<Row>, active: seq<nat>, now: nat, current: seq<string>)
    requires forall k :: 0 <= k < |active| ==> active[k] < |rows|
    ensures ClearedSoFar(rows + raised, active, now, current) == ClearedSoFar(rows, active, now, current) + raised
  {
  }

  lemma MissingNone(active: set<Key>, device: Device, source: Source)
    ensures Missing(active, device, source, []) == []
  {
  }

  lemma ClearedAll(rows: seq<Row>, active: seq<nat>, now: nat, device: Device, source: Source, current: seq<string>)
    requires forall i :: i in active <==> 0 <= i < |rows| && rows[i].Active() && Of(rows[i].key, device, source)
    ensures ClearedSoFar(rows, active, now, current)
        == ClearKeys(rows, now, Vanished(ActiveKeys(rows), device, source, current))
  {
    var gone := Vanished(ActiveKeys(rows), device, source, current);
    forall i | 0 <= i < |rows|
      ensures (i in active && rows[i].key.kind !in current) <==> (rows[i].Active() && rows[i].key in gone)
    {
      InActive(rows, rows[i].key);
    }
  }

  lemma UploadIsActive(rows: seq<Row>, all: seq<nat>, device: Device, kind: string)
    requires forall i :: i in all <==> 0 <= i < |rows| && rows[i].Active() && rows[i].key.device == device
    ensures forall k :: 0 <= k < |all| ==> all[k] < |rows|
    ensures Key(device, LockUpload, kind) in ActiveKeys(rows)
       <==> exists k :: 0 <= k < |all| && rows[all[k]].key.source == LockUpload && rows[all[k]].key.kind == kind
  {
    assert forall k :: 0 <= k < |all| ==> all[k] in all;
    InActive(rows, Key(device, LockUpload, kind));
    if Key(device, LockUpload, kind) in ActiveKeys(rows) {
      var i :| 0 <= i < |rows| && rows[i].Active() && rows[i].key == Key(device, LockUpload, kind);
      var k :| 0 <= k < |all| && all[k] == i;
    }
  }

  lemma CommandClearedIs(before: Store, rows: seq<Row>, all: seq<nat>, device: Device)
    requires forall i ::
              i in all
              <==> 0 <= i < |before.rows| && before.rows[i].Active() && before.rows[i].key.device == device
    requires CommandClearedSoFar(before.rows, rows, all, device, before.clock + 1)
    ensures Store(rows, before.clock + 1) == CommandCleared(before, device)
  {
    var out := CommandCleared(before, device).rows;
    forall i | 0 <= i < |rows|
      ensures rows[i] == out[i]
    {
      InActive(before.rows, before.rows[i].key);
    }
  }
}
