/** The alarm history refines the set of conditions last reported. */
module AlarmLaws {
  import opened Bytes
  import opened AlarmKeys
  import opened Alarms
  import Elock

  // ---------- what reports carry ----------

  predicate Reportable(source: Source, kinds: seq<string>)
  {
    NoDuplicates(kinds) && forall i :: 0 <= i < |kinds| ==> kinds[i] in Kinds(source)
  }

  lemma {:induction false} FlagKindsFromBits(flags: nat, from: nat)
    requires from <= 32
    ensures NoDuplicates(FlagKindsFrom(flags, from))
    ensures forall k ::
              k in FlagKindsFrom(flags, from)
              <==> exists b :: from <= b < 32 && Bit(flags, b) && k == FlagKey(b)
    decreases 32 - from
  {
    hide FlagKey, Bit;
    if from < 32 {
      var rest := FlagKindsFrom(flags, from + 1);
      FlagKindsFromBits(flags, from + 1);
      if FlagKey(from) in rest {
        var b :| from + 1 <= b < 32 && FlagKey(from) == FlagKey(b);
        KeysInjective(from, b);
        assert false;
      }
      forall i | 0 <= i < |rest|
        ensures rest[i] != FlagKey(from)
      {
        assert rest[i] in rest;
      }
    }
  }

  lemma {:induction false} E7KindsFromBits(raw: nat, from: nat)
    requires from <= 24
    ensures NoDuplicates(E7KindsFrom(raw, from))
    ensures forall k :: k in E7KindsFrom(raw, from) <==> exists b :: from <= b < 24 && Bit(raw, b) && k == E7Key(b)
    decreases 24 - from
  {
    hide E7Key, Bit;
    if from < 24 {
      var rest := E7KindsFrom(raw, from + 1);
      E7KindsFromBits(raw, from + 1);
      if E7Key(from) in rest {
        var b :| from + 1 <= b < 24 && E7Key(from) == E7Key(b);
        KeysInjective(from, b);
        assert false;
      }
      forall i | 0 <= i < |rest|
        ensures rest[i] != E7Key(from)
      {
        assert rest[i] in rest;
      }
    }
  }

  lemma {:induction false} LockBitKindsFromBits(low: nat, from: nat)
    requires from <= 4
    ensures NoDuplicates(LockBitKindsFrom(low, from))
    ensures forall k ::
              k in LockBitKindsFrom(low, from)
              <==> exists b :: from <= b < 4 && Bit(low, b) && k == LockBitKey(b)
    decreases 4 - from
  {
    hide LockBitKey, Bit;
    if from < 4 {
      var rest := LockBitKindsFrom(low, from + 1);
      LockBitKindsFromBits(low, from + 1);
      if LockBitKey(from) in rest {
        var b :| from + 1 <= b < 4 && LockBitKey(from) == LockBitKey(b);
        KeysInjective(from, b);
        assert false;
      }
      forall i | 0 <= i < |rest|
        ensures rest[i] != LockBitKey(from)
      {
        assert rest[i] in rest;
      }
    }
  }

  lemma FlagsReportable(flags: nat)
    ensures Reportable(LocationFlags, FlagKindsFrom(flags, 0))
  {
    hide FlagKey;
    FlagKindsFromBits(flags, 0);
    var kinds := FlagKindsFrom(flags, 0);
    assert forall i :: 0 <= i < |kinds| ==> kinds[i] in kinds;
  }

  lemma E7Reportable(raw: nat)
    ensures Reportable(E7Status, E7KindsFrom(raw, 0))
  {
    hide E7Key;
    E7KindsFromBits(raw, 0);
    var kinds := E7KindsFrom(raw, 0);
    assert forall i :: 0 <= i < |kinds| ==> kinds[i] in kinds;
  }

  lemma StatusReportable(code: byte)
    ensures Reportable(LockStatus, LockStatusKinds(code))
  {
    hide LockBitKey, LockBitKindsFrom;
    LockBitKindsFromBits(code % 16, 0);
    var kinds := LockStatusKinds(code);
    forall i | 0 <= i < |kinds|
      ensures kinds[i] in Kinds(LockStatus)
    {
      assert kinds[i] in kinds;
      if kinds[i] in LockBitKindsFrom(code % 16, 0) {
        var b :| 0 <= b < 4 && kinds[i] == LockBitKey(b);
        assert b == 0 || b == 1 || b == 2 || b == 3;
      }
    }
  }

  // ---------- one update ----------

  lemma {:induction false} MissingIs(active: set<Key>, device: Device, source: Source, current: seq<string>)
    ensures forall k ::
              k in Missing(active, device, source, current)
              <==> k in current && Key(device, source, k) !in active
    ensures NoDuplicates(current) ==> NoDuplicates(Missing(active, device, source, current))
  {
    if current != [] {
      var rest := current[1..];
      MissingIs(active, device, source, rest);
      assert current == [current[0]] + rest;
      var more := Missing(active, device, source, rest);
      if NoDuplicates(current) {
        assert forall i :: 0 <= i < |rest| ==> rest[i] == current[i + 1];
        forall i | 0 <= i < |more|
          ensures more[i] != current[0]
        {
          assert more[i] in more;
        }
      }
    }
  }

  lemma InActive(rows: seq<Row>, k: Key)
    ensures k in ActiveKeys(rows) <==> exists i :: 0 <= i < |rows| && rows[i].Active() && rows[i].key == k
  {
    if k in ActiveKeys(rows) {
      var r :| r in rows && r.Active() && r.key == k;
      var i :| 0 <= i < |rows| && rows[i] == r;
    }
  }

  /** Clearing keys removes exactly them from the active set. */
  lemma ClearRemoves(rows: seq<Row>, now: nat, gone: set<Key>)
    ensures ActiveKeys(ClearKeys(rows, now, gone)) == ActiveKeys(rows) - gone
  {
    var out := ClearKeys(rows, now, gone);
    forall k
      ensures k in ActiveKeys(out) <==> k in ActiveKeys(rows) - gone
    {
      InActive(rows, k);
      InActive(out, k);
      if k in ActiveKeys(rows) - gone {
        var i :| 0 <= i < |rows| && rows[i].Active() && rows[i].key == k;
        assert out[i] == rows[i];
      }
    }
  }

  /** Appending raised rows adds exactly their keys. */
  lemma RaiseAdds(rows: seq<Row>, device: Device, source: Source, now: nat, kinds: seq<string>)
    ensures ActiveKeys(rows + RaiseKeys(device, source, now, kinds))
        == ActiveKeys(rows) + (set c | c in kinds :: Key(device, source, c))
  {
    var raised := RaiseKeys(device, source, now, kinds);
    var out := rows + raised;
    forall k
      ensures k in ActiveKeys(out) <==> k in ActiveKeys(rows) || k in (set c | c in kinds :: Key(device, source, c))
    {
      InActive(rows, k);
      InActive(out, k);
      if k in ActiveKeys(out) {
        var i :| 0 <= i < |out| && out[i].Active() && out[i].key == k;
        if i >= |rows| {
          assert out[i] == raised[i - |rows|];
          assert kinds[i - |rows|] in kinds;
        }
      }
      if k in ActiveKeys(rows) {
        var i :| 0 <= i < |rows| && rows[i].Active() && rows[i].key == k;
        assert out[i] == rows[i];
      }
      if k in (set c | c in kinds :: Key(device, source, c)) {
        var i :| 0 <= i < |kinds| && kinds[i] == k.kind;
        assert out[|rows| + i] == raised[i];
      }
    }
  }

  /** Removing some keys from the table keeps its rows well ordered. */
  lemma ClearKeepsValid(s: Store, gone: set<Key>)
    requires Valid(s)
    ensures Valid(Store(ClearKeys(s.rows, s.clock + 1, gone), s.clock + 1))
  {
    hide Kinds;
    var out := ClearKeys(s.rows, s.clock + 1, gone);
    forall i, j | 0 <= i < j < |out|
      ensures Disjoint(out[i], out[j])
    {
      assert Disjoint(s.rows[i], s.rows[j]);
    }
    forall i | 0 <= i < |out|
      ensures Timely(out[i], s.clock + 1) && out[i].key.kind in Kinds(out[i].key.source)
    {
      assert Timely(s.rows[i], s.clock);
    }
  }

  /** Raising conditions that have no active row keeps the rows well ordered. */
  lemma RaiseKeepsValid(s: Store, before: seq<Row>, device: Device, source: Source, kinds: seq<string>)
    requires Valid(s) && s.clock > 0
    requires |before| == |s.rows|
    requires forall i :: 0 <= i < |before| ==>
        before[i].key == s.rows[i].key && (s.rows[i].Active() ==> before[i].Active())
    requires forall i :: 0 <= i < |before| ==> before[i].clearedAt.Some? ==>
        before[i] == s.rows[i] && before[i].clearedAt.value < s.clock
    requires Reportable(source, kinds)
    requires forall i :: 0 <= i < |kinds| ==> Key(device, source, kinds[i]) !in ActiveKeys(before)
    ensures Valid(Store(s.rows + RaiseKeys(device, source, s.clock, kinds), s.clock))
  {
    hide Kinds;
    var raised := RaiseKeys(device, source, s.clock, kinds);
    var out := s.rows + raised;
    var n := |s.rows|;
    forall i | 0 <= i < |out|
      ensures Timely(out[i], s.clock) && out[i].key.kind in Kinds(out[i].key.source)
    {
      if i >= n {
        assert out[i] == raised[i - n] && kinds[i - n] in Kinds(source);
      } else {
        assert out[i] == s.rows[i];
      }
    }
    forall i, j | 0 <= i < j < |out|
      ensures Disjoint(out[i], out[j])
    {
      if j < n {
        assert Disjoint(s.rows[i], s.rows[j]);
      } else if i < n {
        assert out[j] == raised[j - n] && out[i] == s.rows[i];
        if out[i].key == out[j].key {
          InActive(before, before[i].key);
          assert Key(device, source, kinds[j - n]) !in ActiveKeys(before);
        }
      } else {
        assert out[i] == raised[i - n] && out[j] == raised[j - n];
        assert kinds[i - n] != kinds[j - n];
      }
    }
  }

  lemma ReconcileKeepsValid(s: Store, device: Device, source: Source, current: seq<string>)
    requires Valid(s) && Reportable(source, current)
    ensures Valid(Reconciled(s, device, source, current))
  {
    hide Kinds;
    var active := ActiveKeys(s.rows);
    var gone := Vanished(active, device, source, current);
    var kinds := Missing(active, device, source, current);
    MissingIs(active, device, source, current);
    ClearKeepsValid(s, gone);
    var t := Store(ClearKeys(s.rows, s.clock + 1, gone), s.clock + 1);
    forall i | 0 <= i < |kinds|
      ensures kinds[i] in Kinds(source) && Key(device, source, kinds[i]) !in active
    {
      assert kinds[i] in kinds;
      var j :| 0 <= j < |current| && current[j] == kinds[i];
    }
    forall i | 0 <= i < |s.rows| && s.rows[i].clearedAt.Some?
      ensures s.rows[i].clearedAt.value < t.clock
    {
      assert Timely(s.rows[i], s.clock);
    }
    RaiseKeepsValid(t, s.rows, device, source, kinds);
  }

  /** After reconciling, the device and source have exactly the reported conditions active; all others are untouched. */
  lemma ReconcileRefines(s: Store, device: Device, source: Source, current: seq<string>)
    ensures ActiveKeys(Reconciled(s, device, source, current).rows)
        == Replaced(ActiveKeys(s.rows), device, source, current)
  {
    var active := ActiveKeys(s.rows);
    var gone := Vanished(active, device, source, current);
    var kinds := Missing(active, device, source, current);
    MissingIs(active, device, source, current);
    var cleared := ClearKeys(s.rows, s.clock + 1, gone);
    ClearRemoves(s.rows, s.clock + 1, gone);
    RaiseAdds(cleared, device, source, s.clock + 1, kinds);
    forall k
      ensures k in ActiveKeys(Reconciled(s, device, source, current).rows)
          <==> k in Replaced(active, device, source, current)
    {
      if k in Replaced(active, device, source, current) && Of(k, device, source) {
        assert k == Key(device, source, k.kind);
      }
    }
  }

  /** The abstract meaning of a report: the conditions of one device and source are replaced. */
  function Replaced(conditions: set<Key>, device: Device, source: Source, current: seq<string>): set<Key>
  {
    (set k | k in conditions && !Of(k, device, source)) + (set c | c in current :: Key(device, source, c))
  }

  lemma UploadKeeps(s: Store, device: Device, kind: string)
    requires Valid(s) && kind in Kinds(LockUpload)
    ensures Valid(Uploaded(s, device, kind))
    ensures ActiveKeys(Uploaded(s, device, kind).rows) == ActiveKeys(s.rows) + {Key(device, LockUpload, kind)}
  {
    hide Kinds;
    var k := Key(device, LockUpload, kind);
    if k !in ActiveKeys(s.rows) {
      var t := Store(s.rows, s.clock + 1);
      forall i | 0 <= i < |s.rows|
        ensures Timely(s.rows[i], s.clock + 1) && (s.rows[i].clearedAt.Some? ==> s.rows[i].clearedAt.value < t.clock)
      {
        assert Timely(s.rows[i], s.clock);
      }
      assert Valid(t);
      RaiseKeepsValid(t, s.rows, device, LockUpload, [kind]);
      RaiseAdds(s.rows, device, LockUpload, t.clock, [kind]);
      assert RaiseKeys(device, LockUpload, t.clock, [kind]) == [Row(k, t.clock, None)];
      assert (set c | c in [kind] :: Key(device, LockUpload, c)) == {k};
    }
  }

  lemma CommandClearKeeps(s: Store, device: Device)
    requires Valid(s)
    ensures Valid(CommandCleared(s, device))
    ensures ActiveKeys(CommandCleared(s, device).rows)
         == set k | k in ActiveKeys(s.rows) && !ClearedByCommand(k, device)
  {
    hide Valid, ClearKeys, ActiveKeys, ClearedByCommand;
    var gone := set k | k in ActiveKeys(s.rows) && ClearedByCommand(k, device);
    ClearKeepsValid(s, gone);
    ClearRemoves(s.rows, s.clock + 1, gone);
  }

  // ---------- whole runs ----------

  function StatusMeaning(conditions: set<Key>, device: Device, status: Option<byte>, voltage: Option<byte>): set<Key>
  {
    var c := if status.Some? then Replaced(conditions, device, LockStatus, LockStatusKinds(status.value))
      else conditions;
    if voltage.Some? then Replaced(c, device, Voltage, VoltageKinds(voltage.value)) else c
  }

  /** What a report says about the current conditions, with no table and no history. */
  function Meaning(conditions: set<Key>, device: Device, r: Report): set<Key>
  {
    match r
    case LocationReport(flags, e7, lockStatus) =>
      var c := Replaced(conditions, device, LocationFlags, FlagKindsFrom(flags, 0));
      var d := if e7.Some? then Replaced(c, device, E7Status, E7KindsFrom(e7.value, 0)) else c;
      if lockStatus >= 0x10 then StatusMeaning(d, device, Some(lockStatus), None) else d
    case StatusReport(status, voltage) => StatusMeaning(conditions, device, status, voltage)
    case UploadReport(status, voltage, alarm) =>
      var c := StatusMeaning(conditions, device, Some(status), Some(voltage));
      if alarm.Some? then c + {Key(device, LockUpload, UploadKind(alarm.value))} else c
    case ClearSucceeded => set k | k in conditions && !ClearedByCommand(k, device)
  }

  function MeaningAll(conditions: set<Key>, reports: seq<(Device, Report)>): set<Key>
    decreases reports
  {
    if reports == [] then conditions else MeaningAll(Meaning(conditions, reports[0].0, reports[0].1), reports[1..])
  }

  lemma StatusRefines(s: Store, device: Device, status: Option<byte>, voltage: Option<byte>)
    requires Valid(s)
    ensures Valid(StatusTaken(s, device, status, voltage))
    ensures ActiveKeys(StatusTaken(s, device, status, voltage).rows)
        == StatusMeaning(ActiveKeys(s.rows), device, status, voltage)
  {
    hide Valid, Reconciled, Replaced, LockStatusKinds, Kinds, ActiveKeys;
    var t := s;
    if status.Some? {
      StatusReportable(status.value);
      ReconcileKeepsValid(s, device, LockStatus, LockStatusKinds(status.value));
      ReconcileRefines(s, device, LockStatus, LockStatusKinds(status.value));
      t := Reconciled(s, device, LockStatus, LockStatusKinds(status.value));
    }
    if voltage.Some? {
      VoltageReportable(voltage.value);
      ReconcileKeepsValid(t, device, Voltage, VoltageKinds(voltage.value));
      ReconcileRefines(t, device, Voltage, VoltageKinds(voltage.value));
    }
  }

  lemma VoltageReportable(code: byte)
    ensures Reportable(Voltage, VoltageKinds(code))
  {
  }

  lemma ReportRefines(s: Store, device: Device, r: Report)
    requires Valid(s)
    ensures Valid(Taken(s, device, r))
    ensures ActiveKeys(Taken(s, device, r).rows) == Meaning(ActiveKeys(s.rows), device, r)
  {
    hide Valid, Reconciled, Replaced, Kinds, StatusTaken, StatusMeaning, ActiveKeys, FlagKindsFrom, E7KindsFrom,
      Uploaded, UploadKind, CommandCleared;
    match r
    case LocationReport(flags, e7, lockStatus) =>
      FlagsReportable(flags);
      ReconcileKeepsValid(s, device, LocationFlags, FlagKindsFrom(flags, 0));
      ReconcileRefines(s, device, LocationFlags, FlagKindsFrom(flags, 0));
      var u := Reconciled(s, device, LocationFlags, FlagKindsFrom(flags, 0));
      if e7.Some? {
        E7Reportable(e7.value);
        ReconcileKeepsValid(u, device, E7Status, E7KindsFrom(e7.value, 0));
        ReconcileRefines(u, device, E7Status, E7KindsFrom(e7.value, 0));
        u := Reconciled(u, device, E7Status, E7KindsFrom(e7.value, 0));
      }
      if lockStatus >= 0x10 {
        StatusRefines(u, device, Some(lockStatus), None);
      }
    case StatusReport(status, voltage) => StatusRefines(s, device, status, voltage);
    case UploadReport(status, voltage, alarm) =>
      StatusRefines(s, device, Some(status), Some(voltage));
      if alarm.Some? {
        UploadKindKnown(alarm.value);
        UploadKeeps(StatusTaken(s, device, Some(status), Some(voltage)), device, UploadKind(alarm.value));
      }
    case ClearSucceeded => CommandClearKeeps(s, device);
  }

  lemma UploadKindKnown(alarm: Elock.UploadAlarm)
    ensures UploadKind(alarm) in Kinds(LockUpload)
  {
    hide UploadKind;
  }

  /** Refinement over every run: the active rows are exactly the conditions last reported and not cleared by command,
      and the history stays well formed, so at most one row per condition is ever uncleared. */
  lemma {:induction false} HistoryRefinesConditions(s: Store, reports: seq<(Device, Report)>)
    requires Valid(s)
    ensures Valid(TakenAll(s, reports))
    ensures ActiveKeys(TakenAll(s, reports).rows) == MeaningAll(ActiveKeys(s.rows), reports)
    decreases reports
  {
    hide Valid, Taken, Meaning, ActiveKeys;
    if reports != [] {
      ReportRefines(s, reports[0].0, reports[0].1);
      HistoryRefinesConditions(Taken(s, reports[0].0, reports[0].1), reports[1..]);
    }
  }

  lemma EmptyIsValid()
    ensures Valid(EMPTY)
  {
  }

  /** After every run of reports two different rows of one condition are never both active, and their intervals from
      raise to clear are disjoint and in table order. */
  lemma IntervalsDisjoint(reports: seq<(Device, Report)>, i: nat, j: nat)
    requires i < j < |TakenAll(EMPTY, reports).rows|
    requires TakenAll(EMPTY, reports).rows[i].key == TakenAll(EMPTY, reports).rows[j].key
    ensures
      var rows := TakenAll(EMPTY, reports).rows;
      !rows[i].Active() && rows[i].raisedAt < rows[i].clearedAt.value < rows[j].raisedAt
  {
    hide Kinds, TakenAll;
    EmptyIsValid();
    HistoryRefinesConditions(EMPTY, reports);
    var s := TakenAll(EMPTY, reports);
    assert Timely(s.rows[i], s.clock) && Disjoint(s.rows[i], s.rows[j]);
  }

  // ---------- history is append-only ----------

  /** t extends s: rows keep their place, key and raising; a cleared row is never changed again. */
  ghost predicate Extends(s: seq<Row>, t: seq<Row>)
  {
    && |s| <= |t|
    && forall i :: 0 <= i < |s| ==>
         t[i].key == s[i].key && t[i].raisedAt == s[i].raisedAt && (s[i].clearedAt.Some? ==> t[i] == s[i])
  }

  lemma ReconcileExtends(s: Store, device: Device, source: Source, current: seq<string>)
    ensures Extends(s.rows, Reconciled(s, device, source, current).rows)
  {
    hide Missing, Vanished, ActiveKeys;
  }

  lemma StatusExtends(s: Store, device: Device, status: Option<byte>, voltage: Option<byte>)
    ensures Extends(s.rows, StatusTaken(s, device, status, voltage).rows)
  {
    hide Reconciled, LockStatusKinds;
    var t := s;
    if status.Some? {
      ReconcileExtends(s, device, LockStatus, LockStatusKinds(status.value));
      t := Reconciled(s, device, LockStatus, LockStatusKinds(status.value));
    }
    if voltage.Some? {
      ReconcileExtends(t, device, Voltage, VoltageKinds(voltage.value));
    }
  }

  lemma ReportExtends(s: Store, device: Device, r: Report)
    ensures Extends(s.rows, Taken(s, device, r).rows)
  {
    hide Reconciled, StatusTaken, FlagKindsFrom, E7KindsFrom, ActiveKeys, ClearedByCommand, UploadKind;
    match r
    case LocationReport(flags, e7, lockStatus) =>
      ReconcileExtends(s, device, LocationFlags, FlagKindsFrom(flags, 0));
      var u := Reconciled(s, device, LocationFlags, FlagKindsFrom(flags, 0));
      if e7.Some? {
        ReconcileExtends(u, device, E7Status, E7KindsFrom(e7.value, 0));
        u := Reconciled(u, device, E7Status, E7KindsFrom(e7.value, 0));
      }
      StatusExtends(u, device, Some(lockStatus), None);
    case StatusReport(status, voltage) => StatusExtends(s, device, status, voltage);
    case UploadReport(status, voltage, alarm) => StatusExtends(s, device, Some(status), Some(voltage));
    case ClearSucceeded =>
  }

  /** Over every run cleared rows never change again and no row is dropped or rewritten. */
  lemma {:induction false} HistoryAppendOnly(s: Store, reports: seq<(Device, Report)>)
    ensures Extends(s.rows, TakenAll(s, reports).rows)
    decreases reports
  {
    hide Taken;
    if reports != [] {
      var t := Taken(s, reports[0].0, reports[0].1);
      ReportExtends(s, reports[0].0, reports[0].1);
      HistoryAppendOnly(t, reports[1..]);
    }
  }

  // ---------- at most 67 active alarms ----------

  lemma {:induction false} ActiveIdsComplete(rows: seq<Row>, device: Device)
    ensures forall i ::
              i in ActiveIds(rows, device)
              <==> 0 <= i < |rows| && rows[i].Active() && rows[i].key.device == device
    ensures forall a, b :: 0 <= a < b < |ActiveIds(rows, device)| ==>
        ActiveIds(rows, device)[a] < ActiveIds(rows, device)[b]
  {
    if rows != [] {
      var last := |rows| - 1;
      ActiveIdsComplete(rows[..last], device);
      assert forall i :: 0 <= i < last ==> rows[..last][i] == rows[i];
    }
  }

  function Tagged(device: Device, source: Source, kinds: set<string>): set<Key>
  {
    set k | k in kinds :: Key(device, source, k)
  }

  /** Every condition one device can have. */
  function Universe(device: Device): set<Key>
  {
    Tagged(device, LocationFlags, Kinds(LocationFlags)) + Tagged(device, E7Status, Kinds(E7Status))
    + Tagged(device, LockStatus, Kinds(LockStatus)) + Tagged(device, Voltage, Kinds(Voltage))
    + Tagged(device, LockUpload, Kinds(LockUpload))
  }

  function FlagKeysBelow(n: nat): set<string>
    requires n <= 32
  {
    set b | 0 <= b < n :: FlagKey(b)
  }

  function E7KeysBelow(n: nat): set<string>
    requires n <= 24
  {
    set b | 0 <= b < n :: E7Key(b)
  }

  lemma {:induction false} FlagKeysCount(n: nat)
    requires n <= 32
    ensures |FlagKeysBelow(n)| <= n
  {
    hide FlagKey;
    if n == 0 {
      assert FlagKeysBelow(n) == {};
    } else {
      FlagKeysCount(n - 1);
      assert FlagKeysBelow(n) == FlagKeysBelow(n - 1) + {FlagKey(n - 1)};
    }
  }

  lemma {:induction false} E7KeysCount(n: nat)
    requires n <= 24
    ensures |E7KeysBelow(n)| <= n
  {
    hide E7Key;
    if n == 0 {
      assert E7KeysBelow(n) == {};
    } else {
      E7KeysCount(n - 1);
      assert E7KeysBelow(n) == E7KeysBelow(n - 1) + {E7Key(n - 1)};
    }
  }

  lemma {:induction false} TaggedCount(device: Device, source: Source, kinds: set<string>)
    ensures |Tagged(device, source, kinds)| <= |kinds|
    decreases kinds
  {
    if kinds == {} {
      assert Tagged(device, source, kinds) == {};
    } else {
      var k :| k in kinds;
      TaggedCount(device, source, kinds - {k});
      assert Tagged(device, source, kinds) == Tagged(device, source, kinds - {k}) + {Key(device, source, k)};
    }
  }

  lemma UniverseCount(device: Device)
    ensures |Universe(device)| <= 67
  {
    hide FlagKey, E7Key, LockBitKey, UploadKind, Tagged;
    FlagKeysCount(32);
    E7KeysCount(24);
    assert Kinds(LocationFlags) == FlagKeysBelow(32) && Kinds(E7Status) == E7KeysBelow(24);
    TaggedCount(device, LocationFlags, Kinds(LocationFlags));
    TaggedCount(device, E7Status, Kinds(E7Status));
    TaggedCount(device, LockStatus, Kinds(LockStatus));
    TaggedCount(device, Voltage, Kinds(Voltage));
    TaggedCount(device, LockUpload, Kinds(LockUpload));
  }

  lemma InUniverse(k: Key)
    requires k.kind in Kinds(k.source)
    ensures k in Universe(k.device)
  {
    hide Kinds;
    assert k == Key(k.device, k.source, k.kind);
    assert k in Tagged(k.device, k.source, Kinds(k.source));
    match k.source
    case LocationFlags =>
    case E7Status =>
    case LockStatus =>
    case Voltage =>
    case LockUpload =>
  }

  lemma {:induction false} DistinctKeysCount(rows: seq<Row>, ids: seq<nat>, universe: set<Key>)
    requires forall a :: 0 <= a < |ids| ==> ids[a] < |rows| && rows[ids[a]].key in universe
    requires forall a, b :: 0 <= a < b < |ids| ==> rows[ids[a]].key != rows[ids[b]].key
    ensures |ids| <= |universe|
    decreases ids
  {
    if ids != [] {
      var k := rows[ids[0]].key;
      assert forall a :: 0 <= a < |ids[1..]| ==> ids[1..][a] == ids[a + 1];
      DistinctKeysCount(rows, ids[1..], universe - {k});
    }
  }

  /** In a well-formed history a device has at most 67 active alarms, and the query limit does not truncate them. */
  lemma ValidIsBounded(s: Store, device: Device)
    requires Valid(s)
    ensures |ActiveIds(s.rows, device)| <= 67
    ensures ActiveAlarms(s.rows, device) == Reversed(ActiveIds(s.rows, device))
  {
    hide Kinds;
    var ids := ActiveIds(s.rows, device);
    ActiveIdsComplete(s.rows, device);
    forall a | 0 <= a < |ids|
      ensures s.rows[ids[a]].key in Universe(device)
    {
      InUniverse(s.rows[ids[a]].key);
    }
    forall a, b | 0 <= a < b < |ids|
      ensures s.rows[ids[a]].key != s.rows[ids[b]].key
    {
      assert Disjoint(s.rows[ids[a]], s.rows[ids[b]]);
    }
    DistinctKeysCount(s.rows, ids, Universe(device));
    UniverseCount(device);
  }

  lemma {:induction false} ReversedMembers(s: seq<nat>)
    ensures forall x :: x in Reversed(s) <==> x in s
  {
    if s != [] {
      ReversedMembers(s[1..]);
      assert s == [s[0]] + s[1..];
    }
  }

  lemma ValidIsComplete(s: Store, device: Device)
    requires Valid(s)
    ensures forall i ::
              i in ActiveAlarms(s.rows, device)
              <==> 0 <= i < |s.rows| && s.rows[i].Active() && s.rows[i].key.device == device
  {
    hide Valid, ActiveAlarms;
    ValidIsBounded(s, device);
    ActiveIdsComplete(s.rows, device);
    ReversedMembers(ActiveIds(s.rows, device));
  }

  /** After every run of reports a device has at most 67 active alarms, so the query limit of 1000 never truncates: the
      query returns exactly the active rows of the device, newest first. */
  lemma ActiveAlarmsComplete(reports: seq<(Device, Report)>, device: Device)
    ensures
      var rows := TakenAll(EMPTY, reports).rows;
      && |ActiveIds(rows, device)| <= 67 && ActiveAlarms(rows, device) == Reversed(ActiveIds(rows, device))
      && forall i ::
                i in ActiveAlarms(rows, device)
                <==> 0 <= i < |rows| && rows[i].Active() && rows[i].key.device == device
  {
    hide Valid, TakenAll, ActiveAlarms, ActiveIds;
    EmptyIsValid();
    HistoryRefinesConditions(EMPTY, reports);
    ValidIsBounded(TakenAll(EMPTY, reports), device);
    ValidIsComplete(TakenAll(EMPTY, reports), device);
  }
}
