/** The alarm history of server/src/services/telemetry-service.js over the alarm table of server/src/db/memory-store.js.
    Rows are only ever appended, or marked cleared. Instants are counted by a clock that ticks once per table update. */
module Alarms {
  import opened Bytes
  import opened AlarmKeys
  import Elock

  type Device = nat

  datatype Source = LocationFlags | E7Status | LockStatus | Voltage | LockUpload

  /** What a row is about: reconciliation compares rows by device, source and alarm type. */
  datatype Key = Key(device: Device, source: Source, kind: string)

  datatype Row = Row(key: Key, raisedAt: nat, clearedAt: Option<nat>)
  {
    predicate Active() {
      clearedAt.None?
    }
  }

  datatype Store = Store(rows: seq<Row>, clock: nat)

  const EMPTY := Store([], 0)

  /** The limit of the activeAlarms query. */
  const ACTIVE_LIMIT: nat := 1000

  // ---------- conditions carried by a report ----------

  /** decodeAlarmFlags, from bit `from` upwards. */
  function FlagKindsFrom(flags: nat, from: nat): seq<string>
    requires from <= 32
    decreases 32 - from
  {
    if from == 32 then [] else (if Bit(flags, from) then [FlagKey(from)] else []) + FlagKindsFrom(flags, from + 1)
  }

  /** The active alarms of the 0xE7 item, from bit `from` upwards. */
  function E7KindsFrom(raw: nat, from: nat): seq<string>
    requires from <= 24
    decreases 24 - from
  {
    if from == 24 then [] else (if Bit(raw, from) then [E7Key(from)] else []) + E7KindsFrom(raw, from + 1)
  }

  function LockBitKindsFrom(low: nat, from: nat): seq<string>
    requires from <= 4
    decreases 4 - from
  {
    if from == 4 then [] else (if Bit(low, from) then [LockBitKey(from)] else []) + LockBitKindsFrom(low, from + 1)
  }

  const LOCK_ALARM_STATE := "lock_alarm_state"
  const LOCK_ABNORMAL := "lock_abnormal"
  const LOW_BATTERY := "low_battery"

  /** The conditions onLockStatus reads from a LockStatus byte: states 7 and 8 are alarms, state 10 is abnormal. */
  function LockStatusKinds(code: byte): seq<string>
  {
    var high, bits := code / 16, LockBitKindsFrom(code % 16, 0);
    if high == 7 || high == 8 then (if bits == [] then [LOCK_ALARM_STATE] else bits)
    else if high == 10 then [LOCK_ABNORMAL]
    else []
  }

  /** Voltage codes 0x30 (critical) and 0x31 (low) mean a low battery. */
  function VoltageKinds(code: byte): seq<string>
  {
    if code == 0x30 || code == 0x31 then [LOW_BATTERY] else []
  }

  function UploadKind(alarm: Elock.UploadAlarm): string
  {
    match alarm
    case KnobDamage => "knob_damage"
    case LockBodyDamage => "lock_body_damage"
    case LockRodCut => "lock_rod_cut"
    case LockRodOpen => "lock_rod_open"
  }

  lemma FlagKindsNext(kinds: seq<string>, flags: nat, bit: nat)
    requires bit < 32
    ensures kinds + FlagKindsFrom(flags, bit)
         == (if Bit(flags, bit) then kinds + [FlagKey(bit)] else kinds) + FlagKindsFrom(flags, bit + 1)
  {
    hide FlagKey, Bit;
    var rest := FlagKindsFrom(flags, bit + 1);
    assert FlagKindsFrom(flags, bit) == (if Bit(flags, bit) then [FlagKey(bit)] else []) + rest;
    hide FlagKindsFrom;
    AppendOne(kinds, FlagKey(bit), rest);
  }

  lemma AppendOne(kinds: seq<string>, kind: string, rest: seq<string>)
    ensures kinds + ([kind] + rest) == kinds + [kind] + rest
    ensures kinds + ([] + rest) == kinds + rest
  {
  }

  /** decodeAlarmFlags. */
  method DecodeAlarmFlags(flags: nat) returns (kinds: seq<string>)
    ensures kinds == FlagKindsFrom(flags, 0)
  {
    hide FlagKey, Bit, FlagKindsFrom;
    kinds := [];
    for bit := 0 to 32
      invariant kinds + FlagKindsFrom(flags, bit) == FlagKindsFrom(flags, 0)
    {
      FlagKindsNext(kinds, flags, bit);
      if Bit(flags, bit) {
        kinds := kinds + [FlagKey(bit)];
      }
    }
    FlagKindsEnd(flags);
  }

  lemma FlagKindsEnd(flags: nat)
    ensures FlagKindsFrom(flags, 32) == []
  {
  }

  // ---------- table operations ----------

  function ActiveKeys(rows: seq<Row>): set<Key>
  {
    set r | r in rows && r.Active() :: r.key
  }

  /** listAlarms(activeOnly): the active rows of a device, as row numbers in table order. */
  function ActiveIds(rows: seq<Row>, device: Device): (ids: seq<nat>)
    ensures forall k :: 0 <= k < |ids| ==> ids[k] < |rows|
    ensures forall k :: 0 <= k < |ids| ==> rows[ids[k]].Active() && rows[ids[k]].key.device == device
  {
    if rows == [] then []
    else
      var last := |rows| - 1;
      ActiveIds(rows[..last], device) + (if rows[last].Active() && rows[last].key.device == device then [last] else [])
  }

  function Reversed<T>(s: seq<T>): (r: seq<T>)
    ensures |r| == |s|
    ensures forall k :: 0 <= k < |s| ==> r[k] == s[|s| - 1 - k]
  {
    if s == [] then [] else Reversed(s[1..]) + [s[0]]
  }

  /** activeAlarms: newest first, at most ACTIVE_LIMIT rows. */
  function ActiveAlarms(rows: seq<Row>, device: Device): (ids: seq<nat>)
    ensures forall k :: 0 <= k < |ids| ==> ids[k] < |rows|
  {
    var all := Reversed(ActiveIds(rows, device));
    if |all| > ACTIVE_LIMIT then all[..ACTIVE_LIMIT] else all
  }

  function Cleared(r: Row, now: nat): Row
  {
    r.(clearedAt := Some(now))
  }

  /** Marks the active rows of the given keys cleared. */
  function ClearKeys(rows: seq<Row>, now: nat, gone: set<Key>): (out: seq<Row>)
    ensures |out| == |rows|
  {
    seq(|rows|, i requires 0 <= i < |rows| => if rows[i].Active() && rows[i].key in gone then Cleared(rows[i], now)
      else rows[i])
  }

  function RaiseKeys(device: Device, source: Source, now: nat, kinds: seq<string>): (out: seq<Row>)
    ensures |out| == |kinds|
  {
    seq(|kinds|, i requires 0 <= i < |kinds| => Row(Key(device, source, kinds[i]), now, None))
  }

  /** The kinds of `current` that have no active row yet, in order. */
  function Missing(active: set<Key>, device: Device, source: Source, current: seq<string>): (r: seq<string>)
    ensures forall k :: k in r ==> k in current && Key(device, source, k) !in active
  {
    if current == [] then []
    else
      (if Key(device, source, current[0]) in active then [] else [current[0]])
      + Missing(active, device, source, current[1..])
  }

  predicate Of(k: Key, device: Device, source: Source)
  {
    k.device == device && k.source == source
  }

  function Vanished(active: set<Key>, device: Device, source: Source, current: seq<string>): set<Key>
  {
    set k | k in active && Of(k, device, source) && k.kind !in current
  }

  /** reconcile: raises what is reported and not active, clears what is active and not reported. */
  function Reconciled(s: Store, device: Device, source: Source, current: seq<string>): Store
  {
    var now, active := s.clock + 1, ActiveKeys(s.rows);
    Store(ClearKeys(s.rows, now, Vanished(active, device, source, current))
          + RaiseKeys(device, source, now, Missing(active, device, source, current)), now)
  }

  /** The event alarm of a lock upload, raised only if it is not active already. */
  function Uploaded(s: Store, device: Device, kind: string): Store
  {
    var k := Key(device, LockUpload, kind);
    if k in ActiveKeys(s.rows) then s else Store(s.rows + [Row(k, s.clock + 1, None)], s.clock + 1)
  }

  predicate ClearedByCommand(k: Key, device: Device)
  {
    k.device == device && (k.source == LockUpload || k.source == LockStatus)
  }

  /** clearByCommand: lock uploads and lock status alarms of the device are cleared. */
  function CommandCleared(s: Store, device: Device): Store
  {
    Store(ClearKeys(s.rows, s.clock + 1, set k | k in ActiveKeys(s.rows) && ClearedByCommand(k, device)), s.clock + 1)
  }

  // ---------- reports ----------

  /** What reaches the service: a location (0x0200, 0x0201 or the GPS block of 0x0900), the status part of an
      operation reply, a lock upload, or the success of a clear-alarm command. */
  datatype Report =
    | LocationReport(flags: nat, e7: Option<nat>, lockStatus: byte)
    | StatusReport(status: Option<byte>, voltage: Option<byte>)
    | UploadReport(uploadStatus: byte, uploadVoltage: byte, alarm: Option<Elock.UploadAlarm>)
    | ClearSucceeded

  function StatusTaken(s: Store, device: Device, status: Option<byte>, voltage: Option<byte>): Store
  {
    var t := if status.Some? then Reconciled(s, device, LockStatus, LockStatusKinds(status.value)) else s;
    if voltage.Some? then Reconciled(t, device, Voltage, VoltageKinds(voltage.value)) else t
  }

  function Taken(s: Store, device: Device, r: Report): Store
  {
    match r
    case LocationReport(flags, e7, lockStatus) =>
      var t := Reconciled(s, device, LocationFlags, FlagKindsFrom(flags, 0));
      var u := if e7.Some? then Reconciled(t, device, E7Status, E7KindsFrom(e7.value, 0)) else t;
      if lockStatus >= 0x10 then StatusTaken(u, device, Some(lockStatus), None) else u
    case StatusReport(status, voltage) => StatusTaken(s, device, status, voltage)
    case UploadReport(status, voltage, alarm) =>
      var t := StatusTaken(s, device, Some(status), Some(voltage));
      if alarm.Some? then Uploaded(t, device, UploadKind(alarm.value)) else t
    case ClearSucceeded => CommandCleared(s, device)
  }

  function TakenAll(s: Store, reports: seq<(Device, Report)>): Store
    decreases reports
  {
    if reports == [] then s else TakenAll(Taken(s, reports[0].0, reports[0].1), reports[1..])
  }

  // ---------- invariant ----------

  /** Every alarm type a source can report. */
  function Kinds(source: Source): set<string>
  {
    match source
    case LocationFlags => set b | 0 <= b < 32 :: FlagKey(b)
    case E7Status => set b | 0 <= b < 24 :: E7Key(b)
    case LockStatus => {LockBitKey(0), LockBitKey(1), LockBitKey(2), LockBitKey(3), LOCK_ALARM_STATE, LOCK_ABNORMAL}
    case Voltage => {LOW_BATTERY}
    case LockUpload =>
      {UploadKind(Elock.KnobDamage), UploadKind(Elock.LockBodyDamage), UploadKind(Elock.LockRodCut),
        UploadKind(Elock.LockRodOpen)}
  }

  ghost predicate Timely(r: Row, clock: nat)
  {
    r.raisedAt <= clock && (r.clearedAt.Some? ==> r.raisedAt < r.clearedAt.value <= clock)
  }

  /** Two rows for one condition never overlap: the earlier is cleared before the later is raised. */
  ghost predicate Disjoint(earlier: Row, later: Row)
  {
    earlier.key == later.key ==> earlier.clearedAt.Some? && earlier.clearedAt.value < later.raisedAt
  }

  ghost predicate Valid(s: Store)
  {
    && (forall i :: 0 <= i < |s.rows| ==>
        Timely(s.rows[i], s.clock) && s.rows[i].key.kind in Kinds(s.rows[i].key.source))
    && (forall i, j :: 0 <= i < j < |s.rows| ==> Disjoint(s.rows[i], s.rows[j]))
  }

  predicate NoDuplicates(kinds: seq<string>)
  {
    forall i, j :: 0 <= i < j < |kinds| ==> kinds[i] != kinds[j]
  }
}
