/** What every step and every run of the command lifecycle keeps, whatever serials collide. */
module CommandSafety {
  import opened Bytes
  import opened Elock
  import opened Commands

  predicate Final(s: Status)
  {
    s == Completed || s == Rejected || s == SendFailed
  }

  predicate OpenOrLate(s: Status)
  {
    Open(s) || s == Timeout
  }

  function RowKey(r: Row): PendingKey
  {
    PendingKey(r.device, r.serial)
  }

  predicate UniqueKeys(pending: seq<Entry>)
  {
    forall i, j :: 0 <= i < j < |pending| ==> pending[i].KeyOf() != pending[j].KeyOf()
  }

  // ---------- the pending map ----------

  lemma {:induction false} LookupFinds(pending: seq<Entry>, e: Entry)
    requires UniqueKeys(pending) && e in pending
    ensures Lookup(pending, e.KeyOf()) == Some(e)
  {
    assert pending == [pending[0]] + pending[1..];
    if pending[0].KeyOf() != e.KeyOf() {
      LookupFinds(pending[1..], e);
    } else {
      var i :| 0 <= i < |pending| && pending[i] == e;
      assert i == 0;
    }
  }

  lemma {:induction false} WithoutUnique(pending: seq<Entry>, k: PendingKey)
    requires UniqueKeys(pending)
    ensures UniqueKeys(Without(pending, k))
  {
    if pending != [] {
      var rest := Without(pending[1..], k);
      WithoutUnique(pending[1..], k);
      forall j | 0 <= j < |rest| ensures rest[j].KeyOf() != pending[0].KeyOf() {
        assert rest[j] in pending[1..];
      }
    }
  }

  lemma {:induction false} PutUnique(pending: seq<Entry>, e: Entry)
    requires UniqueKeys(pending)
    ensures UniqueKeys(Put(pending, e))
  {
    if pending != [] {
      if pending[0].KeyOf() == e.KeyOf() {
        WithoutUnique(pending[1..], e.KeyOf());
        var rest := Without(pending[1..], e.KeyOf());
        forall j | 0 <= j < |rest| ensures rest[j].KeyOf() != e.KeyOf() {
          assert rest[j] in rest;
        }
      } else {
        PutUnique(pending[1..], e);
        var rest := Put(pending[1..], e);
        forall j | 0 <= j < |rest| ensures rest[j].KeyOf() != pending[0].KeyOf() {
          assert rest[j] in rest;
        }
      }
    }
  }

  lemma SameKeySameEntry(pending: seq<Entry>, e: Entry, f: Entry)
    requires UniqueKeys(pending) && e in pending && f in pending && e.KeyOf() == f.KeyOf()
    ensures e == f
  {
    LookupFinds(pending, e);
    LookupFinds(pending, f);
  }

  lemma AckedUnique(pending: seq<Entry>, k: PendingKey)
    requires UniqueKeys(pending)
    ensures UniqueKeys(MarkAcked(pending, k))
  {
    var t := MarkAcked(pending, k);
    assert forall i :: 0 <= i < |t| ==> t[i].KeyOf() == pending[i].KeyOf();
  }

  // ---------- the invariant ----------

  /** A pending entry belongs to an open row of the same device, serial and lock key. */
  predicate Anchored(rows: seq<Row>, e: Entry)
  {
    && e.id < |rows| && RowKey(rows[e.id]) == e.KeyOf() && e.serial != 0 && Open(rows[e.id].status)
    && rows[e.id].key == e.key && (e.acked <==> rows[e.id].status == Acknowledged)
  }

  predicate AllAnchored(rows: seq<Row>, pending: seq<Entry>)
  {
    forall e :: e in pending ==> Anchored(rows, e)
  }

  /** An armed timer tests the key of its own row. */
  predicate TimersKeyed(rows: seq<Row>, timers: map<CommandId, PendingKey>)
  {
    forall id :: id in timers ==> id < |rows| && timers[id] == RowKey(rows[id])
  }

  /** What holds in every reachable state, serial collisions included. */
  predicate Sound(s: State)
  {
    AllAnchored(s.rows, s.pending) && TimersKeyed(s.rows, s.timers) && UniqueKeys(s.pending)
  }

  lemma IsAnchored(s: State, e: Entry)
    requires Sound(s) && e in s.pending
    ensures Anchored(s.rows, e)
  {
  }

  /** The end of execute finds its command still open only if that command is pending and unacknowledged. */
  lemma StillOpenAnchored(s: State, id: CommandId)
    requires Sound(s) && StillOpen(s.pending, id)
    ensures id < |s.rows| && (s.rows[id].status == Pending || s.rows[id].status == Sent)
  {
    var i :| 0 <= i < |s.pending| && s.pending[i].id == id && !s.pending[i].acked;
    IsAnchored(s, s.pending[i]);
  }

  /** Correlation returns a command of the replying device that is open or timed out. Unless the reply came from the
      platform and the fallback chose it, the command has the reply's serial, and that serial is not 0. */
  lemma CorrelateSound(s: State, d: DeviceId, r: ReplyInfo)
    requires Sound(s) && Correlate(s, d, r).Some?
    ensures
      var m := Correlate(s, d, r).value;
      && m.id < |s.rows| && s.rows[m.id].device == d && OpenOrLate(s.rows[m.id].status)
      && (m.entry.Some? ==> m.entry.value in s.pending && m.entry.value.id == m.id && Anchored(s.rows, m.entry.value))
      && (m.entry.None? ==> Lookup(s.pending, RowKey(s.rows[m.id])).None?)
      && (m.via == OldestPending ==> r.fromPlatform && m.entry.Some?)
      && (m.via != OldestPending ==> s.rows[m.id].serial == r.serial != 0)
  {
    var m := Correlate(s, d, r).value;
    if m.entry.Some? {
      IsAnchored(s, m.entry.value);
    }
  }

  // ---------- every step keeps it ----------

  /** A step that closes or reopens one row, drops the entries of that row if it closes it, and arms nothing. */
  predicate Local(s: State, t: State, id: CommandId)
  {
    && id < |s.rows| && |t.rows| == |s.rows| && RowKey(t.rows[id]) == RowKey(s.rows[id])
    && (forall i :: 0 <= i < |s.rows| && i != id ==> t.rows[i] == s.rows[i])
    && (forall e :: e in t.pending ==> e in s.pending && e.KeyOf() != RowKey(s.rows[id]))
    && t.timers.Keys <= s.timers.Keys && (forall k :: k in t.timers ==> t.timers[k] == s.timers[k])
  }

  lemma LocalKeepsSound(s: State, t: State, id: CommandId)
    requires Sound(s) && Local(s, t, id) && UniqueKeys(t.pending)
    ensures Sound(t)
  {
    hide UniqueKeys;
    forall e | e in t.pending ensures Anchored(t.rows, e) {
      IsAnchored(s, e);
    }
  }

  lemma CloseKeepsSound(s: State, t: State, id: CommandId)
    requires Sound(s) && id < |s.rows| && t.pending == Without(s.pending, RowKey(s.rows[id]))
    requires |t.rows| == |s.rows| && RowKey(t.rows[id]) == RowKey(s.rows[id])
    requires forall i :: 0 <= i < |s.rows| && i != id ==> t.rows[i] == s.rows[i]
    requires t.timers.Keys <= s.timers.Keys && (forall k :: k in t.timers ==> t.timers[k] == s.timers[k])
    ensures Sound(t)
  {
    WithoutUnique(s.pending, RowKey(s.rows[id]));
    hide Sound, Without;
    LocalKeepsSound(s, t, id);
  }

  lemma BeginKeepsSound(s: State, r: Request, seed: nat, written: Option<word>)
    requires Sound(s)
    ensures Sound(BeginStep(s, r, seed, written))
  {
    hide UniqueKeys, IssuedTo;
    var t := BeginStep(s, r, seed, written);
    var k := PendingKey(r.device, BusinessSerial(s, r.device, seed));
    match written {
      case None => WithoutUnique(s.pending, k);
      case Some(jt808) =>
        var e := Entry(|s.rows|, r.device, r.session, r.command, jt808, k.serial, r.key, false,
          IssuedTo(s, r.device, seed).count + 1);
        PutUnique(s.pending, e);
    }
    forall e | e in t.pending ensures Anchored(t.rows, e) {
      if e in s.pending {
        IsAnchored(s, e);
      }
    }
  }

  lemma EndKeepsSound(s: State, id: CommandId)
    requires Sound(s)
    ensures Sound(EndStep(s, id))
  {
    hide UniqueKeys;
    var t := EndStep(s, id);
    if id < |s.rows| && StillOpen(s.pending, id) {
      StillOpenAnchored(s, id);
    }
    forall e | e in t.pending ensures Anchored(t.rows, e) {
      IsAnchored(s, e);
    }
  }

  lemma DeliveredKeepsSound(s: State, e: Entry)
    requires Sound(s) && e in s.pending && e.id < |s.rows|
    ensures Sound(s.(rows := s.rows[e.id := s.rows[e.id].(status := Acknowledged)],
        pending := MarkAcked(s.pending, e.KeyOf())))
  {
    var t := s.(rows := s.rows[e.id := s.rows[e.id].(status := Acknowledged)],
      pending := MarkAcked(s.pending, e.KeyOf()));
    AckedUnique(s.pending, e.KeyOf());
    IsAnchored(s, e);
    forall f | f in t.pending ensures Anchored(t.rows, f) {
      var i :| 0 <= i < |t.pending| && t.pending[i] == f;
      IsAnchored(s, s.pending[i]);
      if f.KeyOf() == e.KeyOf() {
        SameKeySameEntry(s.pending, e, s.pending[i]);
      }
    }
  }

  lemma AckKeepsSound(s: State, session: SessionId, serial: word, result: byte)
    requires Sound(s)
    ensures Sound(AckStep(s, session, serial, result))
  {
    var found := FindSent(s.pending, session, serial);
    if found.Some? {
      var e := found.value;
      IsAnchored(s, e);
      hide Sound, MarkAcked, Without;
      if result == 0 {
        DeliveredKeepsSound(s, e);
      } else {
        CloseKeepsSound(s, AckStep(s, session, serial, result), e.id);
      }
    }
  }

  lemma TimeoutKeepsSound(s: State, id: CommandId)
    requires Sound(s) && id in s.timers
    ensures Sound(TimeoutStep(s, id))
  {
    if Lookup(s.pending, s.timers[id]).Some? {
      TimerHasRow(s, id);
      hide Sound, Without;
      CloseKeepsSound(s, TimeoutStep(s, id), id);
    }
  }

  lemma TimerHasRow(s: State, id: CommandId)
    requires Sound(s) && id in s.timers
    ensures id < |s.rows| && s.timers[id] == RowKey(s.rows[id])
  {
  }

  lemma ReplyKeepsSound(s: State, d: DeviceId, r: ReplyInfo)
    requires Sound(s)
    ensures Sound(ReplyStep(s, d, r))
  {
    hide Correlate, ReplyOutcome, AllAnchored, TimersKeyed, UniqueKeys, Without;
    if Correlate(s, d, r).Some? {
      CorrelateSound(s, d, r);
      var m, t := Correlate(s, d, r).value, ReplyStep(s, d, r);
      if m.entry.Some? {
        CloseKeepsSound(s, t, m.id);
      } else {
        LocalKeepsSound(s, t, m.id);
      }
    }
  }

  /** Every step keeps the weak invariant: nothing is asked about serials. */
  lemma StepKeepsSound(s: State, e: Event)
    requires Sound(s) && Enabled(s, e)
    ensures Sound(Step(s, e))
  {
    match e
    case Begin(r, seed, written) => BeginKeepsSound(s, r, seed, written);
    case Refuse(r) =>
      forall f | f in s.pending ensures Anchored(RefuseStep(s, r).rows, f) {
        IsAnchored(s, f);
      }
    case End(id) => EndKeepsSound(s, id);
    case Ack(session, serial, result) => AckKeepsSound(s, session, serial, result);
    case TimerFires(id) => TimeoutKeepsSound(s, id);
    case Reply(d, r) => ReplyKeepsSound(s, d, r);
    case Restart =>
  }

  // ---------- what a step does to a row ----------

  function Rank(s: Status): nat
  {
    match s
    case Pending => 0
    case Sent => 1
    case Acknowledged => 2
    case Timeout => 3
    case _ => 4
  }

  predicate SameCommand(a: Row, b: Row)
  {
    && a.device == b.device && a.serial == b.serial && a.command == b.command
    && a.lockId == b.lockId && a.key == b.key && a.keyFormat == b.keyFormat
  }

  /** A row keeps its command, its status does not fall back, and once final it never changes. */
  predicate Advances(a: Row, b: Row)
  {
    SameCommand(a, b) && Rank(a.status) <= Rank(b.status) && (Final(a.status) ==> a == b)
  }

  /** A timer left armed on a row that has ended, while another command holds the serial it tests. */
  predicate Stale(s: State, e: Event, id: CommandId)
  {
    && e == TimerFires(id) && id in s.timers && id < |s.rows|
    && Final(s.rows[id].status) && Lookup(s.pending, s.timers[id]).Some?
  }

  lemma EndAdvances(s: State, id: CommandId, i: CommandId)
    requires Sound(s) && i < |s.rows|
    ensures |EndStep(s, id).rows| == |s.rows| && Advances(s.rows[i], EndStep(s, id).rows[i])
  {
    hide Sound, StillOpen;
    if id < |s.rows| && StillOpen(s.pending, id) {
      StillOpenAnchored(s, id);
    }
  }

  lemma AckAdvances(s: State, session: SessionId, serial: word, result: byte, i: CommandId)
    requires Sound(s) && i < |s.rows|
    ensures |AckStep(s, session, serial, result).rows| == |s.rows|
    ensures Advances(s.rows[i], AckStep(s, session, serial, result).rows[i])
  {
    hide Sound;
    var found := FindSent(s.pending, session, serial);
    if found.Some? {
      IsAnchored(s, found.value);
    }
  }

  lemma ReplyAdvances(s: State, d: DeviceId, r: ReplyInfo, i: CommandId)
    requires Sound(s) && i < |s.rows|
    ensures |ReplyStep(s, d, r).rows| == |s.rows| && Advances(s.rows[i], ReplyStep(s, d, r).rows[i])
  {
    hide Sound, Correlate, ReplyOutcome, Without;
    if Correlate(s, d, r).Some? {
      CorrelateSound(s, d, r);
    }
  }

  lemma TimeoutAdvances(s: State, id: CommandId, i: CommandId)
    requires Sound(s) && id in s.timers && i < |s.rows|
    ensures |TimeoutStep(s, id).rows| == |s.rows|
    ensures Advances(s.rows[i], TimeoutStep(s, id).rows[i]) || Stale(s, TimerFires(id), i)
    ensures Stale(s, TimerFires(id), i) ==> TimeoutStep(s, id).rows[i].status == Timeout
  {
  }

  /** The exact condition, step by step: a row advances unless a stale timer fires for it, and then it falls. */
  lemma StepAdvances(s: State, e: Event, id: CommandId)
    requires Sound(s) && Enabled(s, e) && id < |s.rows|
    ensures |s.rows| <= |Step(s, e).rows|
    ensures Advances(s.rows[id], Step(s, e).rows[id]) <==> !Stale(s, e, id)
    ensures Stale(s, e, id) ==> Step(s, e).rows[id].status == Timeout
  {
    hide Sound, EndStep, AckStep, TimeoutStep, ReplyStep;
    match e
    case Begin(_, _, _) =>
    case Refuse(_) =>
    case End(k) => EndAdvances(s, k, id);
    case Ack(session, serial, result) => AckAdvances(s, session, serial, result, id);
    case TimerFires(k) => TimeoutAdvances(s, k, id);
    case Reply(d, r) => ReplyAdvances(s, d, r, id);
    case Restart =>
  }

  /** Every step keeps what command a row is for, and arms no timer for a row it did not add. */
  lemma StepKeepsCommand(s: State, e: Event, id: CommandId)
    requires Sound(s) && Enabled(s, e) && id < |s.rows|
    ensures |s.rows| <= |Step(s, e).rows| && SameCommand(s.rows[id], Step(s, e).rows[id])
    ensures id in Step(s, e).timers ==> id in s.timers
  {
    StepAdvances(s, e, id);
    hide Sound, Correlate, ReplyOutcome, Without, Put, MarkAcked, FindSent, NextSerial, StillOpen;
  }

  // ---------- runs ----------

  /** A run of events each of which can happen when its turn comes. */
  predicate AllEnabled(s: State, run: seq<Event>)
    decreases run
  {
    run == [] || (Enabled(s, run[0]) && AllEnabled(Step(s, run[0]), run[1..]))
  }

  function Run(s: State, run: seq<Event>): State
    requires AllEnabled(s, run)
    decreases run
  {
    if run == [] then s else Run(Step(s, run[0]), run[1..])
  }

  lemma {:induction false} RunKeepsSound(s: State, run: seq<Event>)
    requires Sound(s) && AllEnabled(s, run)
    ensures Sound(Run(s, run))
    decreases run
  {
    hide Sound, Step;
    if run != [] {
      StepKeepsSound(s, run[0]);
      RunKeepsSound(Step(s, run[0]), run[1..]);
    }
  }

  predicate EverStale(s: State, run: seq<Event>, id: CommandId)
    requires AllEnabled(s, run)
    decreases run
  {
    run != [] && (Stale(s, run[0], id) || EverStale(Step(s, run[0]), run[1..], id))
  }

  /** Whether the row advances in every step of a run, from the step that adds it on. */
  predicate AlwaysAdvances(s: State, run: seq<Event>, id: CommandId)
    requires AllEnabled(s, run)
    decreases run
  {
    run == [] ||
    var t := Step(s, run[0]);
    (id < |s.rows| ==> id < |t.rows| && Advances(s.rows[id], t.rows[id])) && AlwaysAdvances(t, run[1..], id)
  }

  /** Over every run, whatever the serials: the status of a command never falls back, and the final statuses are
      absorbing, if and only if no stale timer ever fires for it. */
  lemma {:induction false} StatusNeverFalls(s: State, run: seq<Event>, id: CommandId)
    requires Sound(s) && AllEnabled(s, run)
    ensures AlwaysAdvances(s, run, id) <==> !EverStale(s, run, id)
    ensures |s.rows| <= |Run(s, run).rows|
    ensures id < |s.rows| && !EverStale(s, run, id) ==> Advances(s.rows[id], Run(s, run).rows[id])
    decreases run
  {
    hide Sound, Step, Advances, Stale;
    if run != [] {
      var t := Step(s, run[0]);
      StepKeepsSound(s, run[0]);
      StatusNeverFalls(t, run[1..], id);
      RowsGrow(s, run[0]);
      if id < |s.rows| {
        StepAdvances(s, run[0], id);
        if !EverStale(s, run, id) {
          AdvancesTransitive(s.rows[id], t.rows[id], Run(t, run[1..]).rows[id]);
        }
      } else {
        StaleHasRow(s, run[0], id);
      }
    } else if id < |s.rows| {
      AdvancesReflexive(s.rows[id]);
    }
  }

  lemma RowsGrow(s: State, e: Event)
    requires Sound(s) && Enabled(s, e)
    ensures |s.rows| <= |Step(s, e).rows|
  {
    if 0 < |s.rows| {
      StepAdvances(s, e, 0);
    }
  }

  lemma StaleHasRow(s: State, e: Event, id: CommandId)
    ensures Stale(s, e, id) ==> id < |s.rows|
  {
  }

  lemma AdvancesReflexive(a: Row)
    ensures Advances(a, a)
  {
  }

  lemma AdvancesTransitive(a: Row, b: Row, c: Row)
    requires Advances(a, b) && Advances(b, c)
    ensures Advances(a, c)
  {
  }

  // ---------- success ----------

  predicate Successful(s: State, id: CommandId)
  {
    id < |s.rows| && s.rows[id].status == Completed && s.rows[id].outcome == Some(Success)
  }

  /** The reply is correlated to command `id`, names no other LockID and carries the success code of its command. */
  predicate Succeeds(s: State, e: Event, id: CommandId)
  {
    && e.Reply?
    && var found := Correlate(s, e.device, e.reply);
    && found.Some? && found.value.id == id && id < |s.rows|
    && e.reply.code == SuccessCode(s.rows[id].command) && !WrongLock(s.rows[id], e.reply)
  }

  lemma OtherStepsDoNotSucceed(s: State, e: Event, id: CommandId)
    requires Enabled(s, e) && !e.Reply? && !Successful(s, id)
    ensures !Successful(Step(s, e), id)
  {
    hide Correlate, ReplyStep, Lookup, Without, Put, MarkAcked, FindSent, NextSerial;
  }

  lemma ReplySuccess(s: State, d: DeviceId, r: ReplyInfo, id: CommandId)
    requires !Successful(s, id)
    ensures Successful(ReplyStep(s, d, r), id) <==> Succeeds(s, Event.Reply(d, r), id)
  {
    hide Correlate;
    var found := Correlate(s, d, r);
    if found.Some? && found.value.id < |s.rows| {
      OneSuccessCode(r.code, s.rows[found.value.id].command);
    }
  }

  /** In any state, only a correlated success code of the command's own type makes it successful, and it always does. */
  lemma StepSuccess(s: State, e: Event, id: CommandId)
    requires Enabled(s, e) && !Successful(s, id)
    ensures Successful(Step(s, e), id) <==> Succeeds(s, e, id)
  {
    hide Successful, Succeeds, ReplyStep;
    if e.Reply? {
      ReplySuccess(s, e.device, e.reply, id);
    } else {
      OtherStepsDoNotSucceed(s, e, id);
      OnlyRepliesSucceed(s, e, id);
    }
  }

  lemma OnlyRepliesSucceed(s: State, e: Event, id: CommandId)
    requires !e.Reply?
    ensures !Succeeds(s, e, id)
  {
  }

  predicate EverSucceeds(s: State, run: seq<Event>, id: CommandId)
    requires AllEnabled(s, run)
    decreases run
  {
    run != [] && (Succeeds(s, run[0], id) || EverSucceeds(Step(s, run[0]), run[1..], id))
  }

  /** In every run from any state, a command that ends successful had a reply that succeeded for it. */
  lemma {:induction false} SuccessNeedsItsCode(s: State, run: seq<Event>, id: CommandId)
    requires AllEnabled(s, run) && !Successful(s, id) && Successful(Run(s, run), id)
    ensures EverSucceeds(s, run, id)
    decreases run
  {
    hide Successful, Succeeds, Step;
    if run != [] {
      StepSuccess(s, run[0], id);
      if !Succeeds(s, run[0], id) {
        SuccessNeedsItsCode(Step(s, run[0]), run[1..], id);
      }
    }
  }

  /** Some reply of the run succeeds for the command, and no stale timer fires for it after that. */
  predicate EndsInSuccess(s: State, run: seq<Event>, id: CommandId)
    requires AllEnabled(s, run)
    decreases run
  {
    run != [] &&
    var t := Step(s, run[0]);
    (Succeeds(s, run[0], id) && !EverStale(t, run[1..], id)) || EndsInSuccess(t, run[1..], id)
  }

  /** The exact condition over every run, collisions included: a command ends successful if and only if it was and no
      stale timer fired for it, or some reply succeeded for it and no stale timer fired for it after that. */
  lemma {:induction false} SuccessExactly(s: State, run: seq<Event>, id: CommandId)
    requires Sound(s) && AllEnabled(s, run)
    ensures Successful(Run(s, run), id)
       <==> (Successful(s, id) && !EverStale(s, run, id)) || EndsInSuccess(s, run, id)
    decreases run
  {
    hide Sound, Successful, Succeeds, Step, Stale;
    if run != [] {
      var t := Step(s, run[0]);
      StepKeepsSound(s, run[0]);
      SuccessExactly(t, run[1..], id);
      if Successful(s, id) {
        StepFromSuccess(s, run[0], id);
      } else {
        StepSuccess(s, run[0], id);
      }
    }
  }

  /** A successful command is correlated to no reply, and loses its success exactly to a stale timer. */
  lemma StepFromSuccess(s: State, e: Event, id: CommandId)
    requires Sound(s) && Enabled(s, e) && Successful(s, id)
    ensures !Succeeds(s, e, id) && (Successful(Step(s, e), id) <==> !Stale(s, e, id))
  {
    hide Sound, Step, Stale, Correlate;
    StepAdvances(s, e, id);
    if Succeeds(s, e, id) {
      CorrelateSound(s, e.device, e.reply);
    }
  }

  // ---------- replies ----------

  /** A reply changes at most one command, of the device that sent it, and that command was open or timed out; it
      touches no other device's key. */
  lemma ReplyChangesOne(s: State, d: DeviceId, r: ReplyInfo) returns (id: CommandId)
    requires Sound(s)
    ensures
      var t := ReplyStep(s, d, r);
      && |t.rows| == |s.rows|
      && (forall i :: 0 <= i < |s.rows| && i != id ==> t.rows[i] == s.rows[i])
      && (id < |s.rows| && t.rows[id] != s.rows[id] ==> s.rows[id].device == d && OpenOrLate(s.rows[id].status))
      && (forall o :: o != d ==> (o in t.keys <==> o in s.keys) && (o in s.keys ==> t.keys[o] == s.keys[o]))
  {
    hide Sound, Correlate, ReplyOutcome;
    id := 0;
    if Correlate(s, d, r).Some? {
      CorrelateSound(s, d, r);
      id := Correlate(s, d, r).value.id;
    }
  }

  /** In any state a reply stores a key only if it is the success of a seal, whatever command it is taken for, and then
      it stores that command's key for the device that replied. */
  lemma OnlySealsStoreKeys(s: State, d: DeviceId, r: ReplyInfo)
    requires Sound(s) && ReplyStep(s, d, r).keys != s.keys
    ensures r.code == SuccessCode(Seal) && Correlate(s, d, r).Some?
    ensures
      var id := Correlate(s, d, r).value.id;
      && id < |s.rows| && s.rows[id].command == Seal && !WrongLock(s.rows[id], r)
      && ReplyStep(s, d, r).keys == s.keys[d := StoredKey(s.rows[id].key, s.rows[id].keyFormat)]
  {
    hide Sound, Correlate, Without;
    CorrelateSound(s, d, r);
    OneSuccessCode(r.code, Seal);
  }

  /** A spontaneous reply (serial 0) that does not say it answers the platform changes nothing. */
  lemma SpontaneousReplyIsIgnored(s: State, d: DeviceId, r: ReplyInfo)
    requires Sound(s) && r.serial == 0 && !r.fromPlatform
    ensures ReplyStep(s, d, r) == s
  {
    if Correlate(s, d, r).Some? {
      CorrelateSound(s, d, r);
    }
  }
}
