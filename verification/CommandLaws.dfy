/** What every run of the command lifecycle keeps. */
module CommandLaws {
  import opened Bytes
  import opened Elock
  import opened Commands
  import opened CommandSafety

  // ---------- business serials ----------

  /** The k-th serial of a process that started from `seed`, counting from 1. */
  function NthSerial(seed: nat, k: nat): (s: nat)
    requires k >= 1
    ensures 1 <= s <= SERIALS
  {
    (seed + k - 1) % SERIALS + 1
  }

  lemma {:induction false} SerialSequence(seed: nat, k: nat)
    requires k >= 1
    ensures NthSerial(seed, 1) == NextSerial(seed)
    ensures NthSerial(seed, k + 1) == NextSerial(NthSerial(seed, k))
    ensures 1 <= seed <= SERIALS ==> NthSerial(seed, k) == (seed - 1 + k) % SERIALS + 1
  {
    var n := seed + k - 1;
    assert n == SERIALS * (n / SERIALS) + n % SERIALS;
    if n % SERIALS == SERIALS - 1 {
      assert n + 1 == SERIALS * (n / SERIALS + 1);
    }
  }

  /** Two serials of one process agree exactly when a multiple of 65535 commands lies between them. */
  lemma {:induction false} SerialsDistinct(seed: nat, i: nat, j: nat)
    requires 1 <= i <= j
    ensures NthSerial(seed, i) == NthSerial(seed, j) <==> (j - i) % SERIALS == 0
    ensures i < j < i + SERIALS ==> NthSerial(seed, i) != NthSerial(seed, j)
  {
    var a, b := seed + i - 1, seed + j - 1;
    assert a == SERIALS * (a / SERIALS) + a % SERIALS;
    assert b == SERIALS * (b / SERIALS) + b % SERIALS;
    var d := j - i;
    assert d == SERIALS * (d / SERIALS) + d % SERIALS;
    assert d == SERIALS * (b / SERIALS - a / SERIALS) + (b % SERIALS - a % SERIALS);
  }

  // ---------- the invariant ----------

  predicate HasEntry(pending: seq<Entry>, id: CommandId)
  {
    exists e :: e in pending && e.id == id
  }

  /** A pending entry belongs to an open row that agrees with it, and its timer is armed. */
  predicate EntryOk(s: State, e: Entry)
  {
    && e.id < |s.rows|
    && var row := s.rows[e.id];
    && Open(row.status) && row.outcome == None
    && row.device == e.device && row.serial == e.serial && row.command == e.command && row.key == e.key
    && (e.acked <==> row.status == Acknowledged)
    && (row.status == Pending ==> e.id in s.sending) && (row.status == Sent ==> e.id !in s.sending)
    && e.id in s.timers && s.timers[e.id] == e.KeyOf()
    && e.device in s.issued && 1 <= e.issue <= s.issued[e.device].count
    && e.serial == NthSerial(s.issued[e.device].seed, e.issue)
  }

  predicate EntriesOk(s: State)
  {
    forall e :: e in s.pending ==> EntryOk(s, e)
  }

  /** A row that is not open says how it ended. */
  predicate RowOk(r: Row)
  {
    && (r.outcome == None <==> Open(r.status))
    && (r.status == Timeout ==> r.outcome == Some(TimedOut))
    && (r.status == Rejected || r.status == SendFailed ==> r.outcome == Some(Failure))
    && (r.serial == 0 ==> r.status == SendFailed)
    && r.serial <= SERIALS
    && PlatformCommand(r.command) && KeyBytes(r.key, r.keyFormat).Ok?
  }

  predicate RowsOk(rows: seq<Row>)
  {
    forall i :: 0 <= i < |rows| ==> RowOk(rows[i])
  }

  /** Rows are open only while their own entry is pending. */
  predicate OpenArePending(rows: seq<Row>, pending: seq<Entry>)
  {
    forall i :: 0 <= i < |rows| && Open(rows[i].status) ==> HasEntry(pending, i)
  }

  predicate TimersOk(timers: map<CommandId, PendingKey>, pending: seq<Entry>)
  {
    forall id :: id in timers ==> HasEntry(pending, id)
  }

  predicate SendingOk(sending: set<CommandId>, rows: seq<Row>)
  {
    forall id :: id in sending ==> id < |rows|
  }

  predicate SerialsOk(serials: map<DeviceId, nat>, issued: map<DeviceId, Issued>)
  {
    && serials.Keys == issued.Keys
    && forall d :: d in serials ==> issued[d].count >= 1 && serials[d] == NthSerial(issued[d].seed, issued[d].count)
  }

  predicate Inv(s: State)
  {
    && EntriesOk(s) && UniqueKeys(s.pending) && RowsOk(s.rows) && OpenArePending(s.rows, s.pending)
    && TimersOk(s.timers, s.pending) && SendingOk(s.sending, s.rows) && SerialsOk(s.serials, s.issued)
  }

  const EMPTY := State([], [], map[], {}, map[], map[], map[])

  /** Row numbers identify pending entries. */
  lemma SameIdSameEntry(s: State, e: Entry, f: Entry)
    requires EntriesOk(s) && UniqueKeys(s.pending) && e in s.pending && f in s.pending && e.id == f.id
    ensures e == f
  {
    assert EntryOk(s, e) && EntryOk(s, f);
    SameKeySameEntry(s.pending, e, f);
  }

  // ---------- every step keeps the invariant ----------

  /** A row may change only into one of the same command, with a closed status and its outcome. */
  predicate Closes(before: Row, after: Row)
  {
    && RowOk(after) && !Open(after.status)
    && after.device == before.device && after.serial == before.serial && after.command == before.command
    && after.lockId == before.lockId && after.key == before.key && after.keyFormat == before.keyFormat
  }

  lemma FinishEntries(s: State, e: Entry, row: Row, keys: map<DeviceId, StoredKey>)
    requires EntriesOk(s) && UniqueKeys(s.pending) && e in s.pending && EntryOk(s, e)
    ensures EntriesOk(Finish(s, e).(rows := s.rows[e.id := row], keys := keys))
  {
    hide NthSerial;
    var t := Finish(s, e).(rows := s.rows[e.id := row], keys := keys);
    forall f | f in t.pending ensures EntryOk(t, f) {
      assert EntryOk(s, f);
      if f.id == e.id {
        SameIdSameEntry(s, e, f);
      }
    }
  }

  lemma FinishListed(s: State, e: Entry, id: CommandId)
    requires UniqueKeys(s.pending) && e in s.pending && HasEntry(s.pending, id) && id != e.id
    ensures HasEntry(Without(s.pending, e.KeyOf()), id)
  {
    var f :| f in s.pending && f.id == id;
    if f.KeyOf() == e.KeyOf() {
      SameKeySameEntry(s.pending, e, f);
    }
  }

  lemma FinishOthers(s: State, e: Entry, row: Row)
    requires OpenArePending(s.rows, s.pending) && TimersOk(s.timers, s.pending) && UniqueKeys(s.pending)
        && e in s.pending && e.id < |s.rows| && !Open(row.status)
    ensures OpenArePending(s.rows[e.id := row], Without(s.pending, e.KeyOf()))
    ensures TimersOk(s.timers - {e.id}, Without(s.pending, e.KeyOf()))
  {
    hide UniqueKeys, HasEntry;
    forall id: CommandId | HasEntry(s.pending, id) && id != e.id ensures HasEntry(Without(s.pending, e.KeyOf()), id) {
      FinishListed(s, e, id);
    }
  }

  lemma RowsUpdated(rows: seq<Row>, id: CommandId, row: Row, sending: set<CommandId>)
    requires RowsOk(rows) && SendingOk(sending, rows) && id < |rows| && RowOk(row)
    ensures RowsOk(rows[id := row]) && SendingOk(sending, rows[id := row])
  {
    hide RowOk;
  }

  /** Finishing a pending command: its row closes, its entry and its timer go. */
  lemma FinishKeeps(s: State, e: Entry, row: Row, keys: map<DeviceId, StoredKey>)
    requires Inv(s) && e in s.pending && e.id < |s.rows| && EntryOk(s, e) && Closes(s.rows[e.id], row)
    ensures Inv(Finish(s, e).(rows := s.rows[e.id := row], keys := keys))
  {
    hide EntriesOk, UniqueKeys, RowsOk, EntryOk, SerialsOk, RowOk, Without, OpenArePending, TimersOk, SendingOk;
    FinishEntries(s, e, row, keys);
    WithoutUnique(s.pending, e.KeyOf());
    FinishOthers(s, e, row);
    RowsUpdated(s.rows, e.id, row, s.sending);
  }

  /** Rewriting a row that is already closed. */
  lemma RewriteKeeps(s: State, id: CommandId, row: Row, keys: map<DeviceId, StoredKey>)
    requires Inv(s) && id < |s.rows| && !Open(s.rows[id].status) && Closes(s.rows[id], row)
    ensures Inv(s.(rows := s.rows[id := row], keys := keys))
  {
    var t := s.(rows := s.rows[id := row], keys := keys);
    forall e | e in t.pending ensures EntryOk(t, e) {
      assert EntryOk(s, e);
    }
  }

  /** The business serial a new command gets is not that of a pending command of the device. */
  predicate SerialFree(s: State, d: DeviceId, seed: nat)
  {
    Lookup(s.pending, PendingKey(d, BusinessSerial(s, d, seed))).None?
  }

  /** Entries stay right when rows are appended and their device is given more serials. */
  lemma StaysOk(s: State, t: State, e: Entry)
    requires EntryOk(s, e)
    requires s.rows <= t.rows && e.id in t.timers && t.timers[e.id] == s.timers[e.id]
        && (e.id in t.sending <==> e.id in s.sending)
    requires e.device in t.issued && t.issued[e.device].seed == s.issued[e.device].seed
        && t.issued[e.device].count >= s.issued[e.device].count
    ensures EntryOk(t, e)
  {
  }

  lemma NewEntryOk(s: State, r: Request, seed: nat, jt808: word)
    requires Inv(s)
    ensures EntriesOk(BeginStep(s, r, seed, Some(jt808)))
  {
    hide RowsOk, OpenArePending, TimersOk, SendingOk, UniqueKeys;
    var t := BeginStep(s, r, seed, Some(jt808));
    BeginSerials(s, r, seed, Some(jt808));
    forall e | e in t.pending ensures EntryOk(t, e) {
      if e in s.pending {
        StaysOk(s, t, e);
      }
    }
  }

  lemma BeginSerials(s: State, r: Request, seed: nat, written: Option<word>)
    requires SerialsOk(s.serials, s.issued)
    ensures var t := BeginStep(s, r, seed, written); SerialsOk(t.serials, t.issued)
  {
    var before := IssuedTo(s, r.device, seed);
    SerialSequence(before.seed, before.count + 1);
    if r.device in s.serials {
      SerialSequence(before.seed, before.count);
    }
    hide NthSerial, NextSerial, Put, Without;
  }

  lemma BeginUnsentKeeps(s: State, r: Request, seed: nat)
    requires Inv(s) && SerialFree(s, r.device, seed) && PlatformCommand(r.command) && KeyBytes(r.key, r.keyFormat).Ok?
    ensures Inv(BeginStep(s, r, seed, None))
  {
    hide SerialsOk, NthSerial, EntriesOk, HasEntry, KeyBytes;
    var t := BeginStep(s, r, seed, None);
    BeginSerials(s, r, seed, None);
    NoEntryOk(s, r, seed);
    WithoutUnique(s.pending, PendingKey(r.device, BusinessSerial(s, r.device, seed)));
    StillListed(s.pending, t.pending);
    hide UniqueKeys, Without;
  }

  lemma NoEntryOk(s: State, r: Request, seed: nat)
    requires Inv(s) && SerialFree(s, r.device, seed)
    ensures EntriesOk(BeginStep(s, r, seed, None))
    ensures forall e :: e in s.pending ==> e in BeginStep(s, r, seed, None).pending
  {
    hide RowsOk, OpenArePending, TimersOk, SendingOk, UniqueKeys, SerialsOk;
    var t := BeginStep(s, r, seed, None);
    forall e | e in s.pending ensures EntryOk(t, e) && e in t.pending {
      StaysOk(s, t, e);
    }
  }

  lemma BeginSentKeeps(s: State, r: Request, seed: nat, jt808: word)
    requires Inv(s) && SerialFree(s, r.device, seed) && PlatformCommand(r.command) && KeyBytes(r.key, r.keyFormat).Ok?
    ensures Inv(BeginStep(s, r, seed, Some(jt808)))
  {
    hide SerialsOk, NthSerial, EntriesOk, KeyBytes;
    var t := BeginStep(s, r, seed, Some(jt808));
    BeginSerials(s, r, seed, Some(jt808));
    var e := Entry(|s.rows|, r.device, r.session, r.command, jt808, BusinessSerial(s, r.device, seed), r.key, false,
                   IssuedTo(s, r.device, seed).count + 1);
    PutUnique(s.pending, e);
    NewEntryOk(s, r, seed, jt808);
    StillListed(s.pending, t.pending);
    assert e in t.pending;
  }

  lemma BeginKeeps(s: State, r: Request, seed: nat, written: Option<word>)
    requires Inv(s) && SerialFree(s, r.device, seed) && PlatformCommand(r.command) && KeyBytes(r.key, r.keyFormat).Ok?
    ensures Inv(BeginStep(s, r, seed, written))
  {
    match written
    case None => BeginUnsentKeeps(s, r, seed);
    case Some(jt808) => BeginSentKeeps(s, r, seed, jt808);
  }

  lemma StillListed(before: seq<Entry>, after: seq<Entry>)
    requires forall e :: e in before ==> e in after
    ensures forall id :: HasEntry(before, id) ==> HasEntry(after, id)
  {
    forall id | HasEntry(before, id) ensures HasEntry(after, id) {
      var e :| e in before && e.id == id;
      assert e in after;
    }
  }

  lemma RefuseKeeps(s: State, r: Request)
    requires Inv(s) && PlatformCommand(r.command) && KeyBytes(r.key, r.keyFormat).Ok?
    ensures Inv(RefuseStep(s, r))
  {
    var t := RefuseStep(s, r);
    forall e | e in t.pending ensures EntryOk(t, e) {
      assert EntryOk(s, e);
    }
  }

  /** The end of execute finds its command still open only if that command is pending and unacknowledged. */
  lemma StillOpenEntry(s: State, id: CommandId) returns (e: Entry)
    requires Inv(s) && StillOpen(s.pending, id)
    ensures e in s.pending && e.id == id && !e.acked && EntryOk(s, e)
  {
    var i :| 0 <= i < |s.pending| && s.pending[i].id == id && !s.pending[i].acked;
    e := s.pending[i];
  }

  lemma EndEntry(s: State, id: CommandId, e: Entry)
    requires Inv(s) && e in s.pending && EntryOk(s, e)
    ensures EntryOk(EndStep(s, id), e)
  {
    hide NthSerial, EntriesOk, RowsOk, OpenArePending, SerialsOk, TimersOk;
    if StillOpen(s.pending, id) {
      var f := StillOpenEntry(s, id);
      if e.id == id {
        SameIdSameEntry(s, e, f);
      }
    } else if e.id == id {
      var i :| 0 <= i < |s.pending| && s.pending[i] == e;
      assert e.acked;
    }
  }

  lemma EndEntries(s: State, id: CommandId)
    requires Inv(s)
    ensures EntriesOk(EndStep(s, id))
  {
    forall e | e in s.pending ensures EntryOk(EndStep(s, id), e) {
      assert EntryOk(s, e);
      hide Inv, EntryOk;
      EndEntry(s, id, e);
    }
  }

  lemma EndKeeps(s: State, id: CommandId)
    requires Inv(s)
    ensures Inv(EndStep(s, id))
  {
    hide NthSerial, EntriesOk, StillOpen;
    EndEntries(s, id);
    if StillOpen(s.pending, id) {
      var e := StillOpenEntry(s, id);
    }
  }

  function Acked(s: State, e: Entry): State
    requires e.id < |s.rows|
  {
    s.(rows := s.rows[e.id := s.rows[e.id].(status := Acknowledged)], pending := MarkAcked(s.pending, e.KeyOf()))
  }

  lemma AckedEntry(s: State, e: Entry, f: Entry)
    requires Inv(s) && e in s.pending && f in s.pending && EntryOk(s, e) && EntryOk(s, f)
    ensures EntryOk(Acked(s, e), SetAcked(f, e.KeyOf()))
  {
    hide EntriesOk, SerialsOk, OpenArePending, RowsOk, TimersOk, NthSerial;
    if f.KeyOf() == e.KeyOf() {
      SameKeySameEntry(s.pending, e, f);
    } else if f.id == e.id {
      SameIdSameEntry(s, e, f);
    }
  }

  lemma AckedEntries(s: State, e: Entry)
    requires Inv(s) && e in s.pending && EntryOk(s, e)
    ensures EntriesOk(Acked(s, e)) && forall id :: HasEntry(s.pending, id) ==> HasEntry(Acked(s, e).pending, id)
  {
    hide SerialsOk, OpenArePending, RowsOk, TimersOk, NthSerial;
    var t := Acked(s, e);
    forall f | f in t.pending ensures EntryOk(t, f) {
      var i :| 0 <= i < |t.pending| && t.pending[i] == f;
      AckedEntry(s, e, s.pending[i]);
    }
    forall id | HasEntry(s.pending, id) ensures HasEntry(t.pending, id) {
      var i :| 0 <= i < |s.pending| && s.pending[i].id == id;
      assert t.pending[i].id == id && t.pending[i] in t.pending;
    }
  }

  lemma MarkAckedKeeps(s: State, e: Entry)
    requires Inv(s) && e in s.pending && EntryOk(s, e)
    ensures Inv(Acked(s, e))
  {
    AckedEntries(s, e);
    AckedUnique(s.pending, e.KeyOf());
    hide EntriesOk, SerialsOk, HasEntry, UniqueKeys, KeyBytes, EntryOk;
    assert RowOk(s.rows[e.id]);
  }

  lemma AckKeeps(s: State, session: SessionId, serial: word, result: byte)
    requires Inv(s)
    ensures Inv(AckStep(s, session, serial, result))
  {
    var found := FindSent(s.pending, session, serial);
    if found.Some? {
      var e := found.value;
      assert EntryOk(s, e);
      hide EntriesOk, UniqueKeys, RowsOk, OpenArePending, TimersOk, SendingOk, SerialsOk, MarkAcked, Without;
      if result == 0 {
        MarkAckedKeeps(s, e);
      } else {
        RejectedKeeps(s, e);
      }
    }
  }

  lemma RejectedKeeps(s: State, e: Entry)
    requires Inv(s) && e in s.pending && e.id < |s.rows| && EntryOk(s, e)
    ensures Inv(Finish(s, e).(rows := s.rows[e.id := s.rows[e.id].(status := Rejected, outcome := Some(Failure))]))
  {
    var row := s.rows[e.id].(status := Rejected, outcome := Some(Failure));
    assert RowOk(s.rows[e.id]);
    FinishKeeps(s, e, row, s.keys);
    hide Inv, EntryOk;
  }

  /** A timer that fires finds its own command pending. */
  lemma TimerFindsItsCommand(s: State, id: CommandId) returns (e: Entry)
    requires Inv(s) && id in s.timers
    ensures e in s.pending && e.id == id && EntryOk(s, e) && Lookup(s.pending, s.timers[id]) == Some(e)
  {
    assert HasEntry(s.pending, id);
    e :| e in s.pending && e.id == id;
    assert EntryOk(s, e);
    LookupFinds(s.pending, e);
  }

  lemma TimeoutFinishes(s: State, id: CommandId, e: Entry)
    requires id in s.timers && id < |s.rows| && e.id == id && Lookup(s.pending, s.timers[id]) == Some(e)
    ensures TimeoutStep(s, id)
        == Finish(s, e).(rows := s.rows[id := s.rows[id].(status := Timeout, outcome := Some(TimedOut))])
  {
    hide Without;
  }

  lemma TimeoutKeeps(s: State, id: CommandId)
    requires Inv(s) && id in s.timers
    ensures Inv(TimeoutStep(s, id))
  {
    var e := TimerFindsItsCommand(s, id);
    assert RowOk(s.rows[id]);
    hide Inv, EntryOk, TimeoutStep;
    FinishKeeps(s, e, s.rows[id].(status := Timeout, outcome := Some(TimedOut)), s.keys);
    TimeoutFinishes(s, id, e);
  }

  /** An open command is found under its device and serial. */
  lemma OpenIsFound(s: State, id: CommandId) returns (e: Entry)
    requires Inv(s) && id < |s.rows| && Open(s.rows[id].status)
    ensures e in s.pending && e.id == id && EntryOk(s, e)
    ensures Lookup(s.pending, PendingKey(s.rows[id].device, s.rows[id].serial)) == Some(e)
  {
    assert HasEntry(s.pending, id);
    e :| e in s.pending && e.id == id;
    assert EntryOk(s, e);
    LookupFinds(s.pending, e);
  }

  /** The invariant contains the weak one. */
  lemma InvIsSound(s: State)
    requires Inv(s)
    ensures Sound(s)
  {
    hide NthSerial, SerialsOk, OpenArePending, SendingOk;
    forall e | e in s.pending ensures Anchored(s.rows, e) {
      assert EntryOk(s, e);
      assert RowOk(s.rows[e.id]);
    }
    forall id | id in s.timers ensures id < |s.rows| && s.timers[id] == RowKey(s.rows[id]) {
      var e := TimerFindsItsCommand(s, id);
    }
  }

  /** While no serial has collided, a match without an entry is one that timed out. */
  lemma CorrelateExact(s: State, d: DeviceId, r: ReplyInfo)
    requires Inv(s) && Correlate(s, d, r).Some?
    ensures
      var m := Correlate(s, d, r).value;
      && m.id < |s.rows| && s.rows[m.id].device == d && OpenOrLate(s.rows[m.id].status)
      && (m.entry.Some? ==> m.entry.value in s.pending && m.entry.value.id == m.id && EntryOk(s, m.entry.value))
      && (m.entry.None? ==> s.rows[m.id].status == Timeout)
  {
    hide Correlate, EntryOk;
    InvIsSound(s);
    CorrelateSound(s, d, r);
    var m := Correlate(s, d, r).value;
    if m.entry.Some? {
      EntryIsOk(s, m.entry.value);
    } else if Open(s.rows[m.id].status) {
      var e := OpenIsFound(s, m.id);
    }
  }

  lemma EntryIsOk(s: State, e: Entry)
    requires Inv(s) && e in s.pending
    ensures EntryOk(s, e)
  {
  }

  lemma ReplyCloses(s: State, d: DeviceId, r: ReplyInfo)
    requires RowsOk(s.rows) && Correlate(s, d, r).Some? && Correlate(s, d, r).value.id < |s.rows|
    requires !Final(s.rows[Correlate(s, d, r).value.id].status)
    ensures Closes(s.rows[Correlate(s, d, r).value.id], ReplyStep(s, d, r).rows[Correlate(s, d, r).value.id])
  {
    hide Correlate, KeyBytes, ReplyOutcome, Without;
    var m := Correlate(s, d, r).value;
    assert RowOk(s.rows[m.id]);
    hide RowsOk;
  }

  /** The two shapes of a reply step that finds a command. */
  lemma ReplyShape(s: State, d: DeviceId, r: ReplyInfo)
    requires Correlate(s, d, r).Some? && Correlate(s, d, r).value.id < |s.rows|
    requires Correlate(s, d, r).value.entry.Some? ==>
        Correlate(s, d, r).value.entry.value.id == Correlate(s, d, r).value.id
    ensures var m, t := Correlate(s, d, r).value, ReplyStep(s, d, r);
      match m.entry
      case Some(e) => t == Finish(s, e).(rows := s.rows[e.id := t.rows[m.id]], keys := t.keys)
      case None => t == s.(rows := s.rows[m.id := t.rows[m.id]], keys := t.keys)
  {
    hide Correlate, ReplyOutcome, Without;
  }

  lemma ReplyKeeps(s: State, d: DeviceId, r: ReplyInfo)
    requires Inv(s)
    ensures Inv(ReplyStep(s, d, r))
  {
    hide Correlate, ReplyOutcome, Inv, Closes, EntryOk;
    var found := Correlate(s, d, r);
    if found.Some? {
      CorrelateExact(s, d, r);
      InvParts(s);
      ReplyCloses(s, d, r);
      ReplyShape(s, d, r);
      var m, t := found.value, ReplyStep(s, d, r);
      match m.entry {
        case Some(e) => FinishKeeps(s, e, t.rows[m.id], t.keys);
        case None => RewriteKeeps(s, m.id, t.rows[m.id], t.keys);
      }
    }
  }

  lemma InvParts(s: State)
    requires Inv(s)
    ensures RowsOk(s.rows) && forall e :: e in s.pending ==> e.id < |s.rows| && Open(s.rows[e.id].status)
  {
    hide NthSerial, SerialsOk, TimersOk, OpenArePending, UniqueKeys;
    forall e | e in s.pending ensures e.id < |s.rows| && Open(s.rows[e.id].status) {
      assert EntryOk(s, e);
    }
  }

  /** A new process starts from the invariant on any table of well-formed rows, whatever collided before. */
  lemma RestartKeeps(s: State)
    requires RowsOk(s.rows)
    ensures Inv(RestartStep(s))
  {
    hide KeyBytes;
    var t := RestartStep(s);
    forall i | 0 <= i < |t.rows| ensures RowOk(t.rows[i]) && !Open(t.rows[i].status) {
      assert RowOk(s.rows[i]);
    }
  }

  /** A command is begun only with a serial that no pending command of its device holds. */
  predicate Permitted(s: State, e: Event)
  {
    Enabled(s, e) && (e.Begin? ==> SerialFree(s, e.request.device, e.seed))
  }

  lemma StepKeepsInv(s: State, e: Event)
    requires Inv(s) && Permitted(s, e)
    ensures Inv(Step(s, e))
  {
    hide Inv;
    match e
    case Begin(r, seed, written) => BeginKeeps(s, r, seed, written);
    case Refuse(r) => RefuseKeeps(s, r);
    case End(id) => EndKeeps(s, id);
    case Ack(session, serial, result) => AckKeeps(s, session, serial, result);
    case TimerFires(id) => TimeoutKeeps(s, id);
    case Reply(d, r) => ReplyKeeps(s, d, r);
    case Restart =>
      InvParts(s);
      RestartKeeps(s);
  }
}
