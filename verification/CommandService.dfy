/** The imperative service of server/src/services/command-service.js over the command table of
    server/src/db/memory-store.js: each handler makes exactly its step. */
module CommandService {
  import opened Bytes
  import opened Elock
  import opened Commands

  class CommandService {
    var rows: seq<Row>
    var pending: seq<Entry>
    var timers: map<CommandId, PendingKey>
    var sending: set<CommandId>
    var serials: map<DeviceId, nat>
    var issued: map<DeviceId, Issued>
    var keys: map<DeviceId, StoredKey>

    constructor (rows: seq<Row>, keys: map<DeviceId, StoredKey>)
      ensures View() == State(rows, [], map[], {}, map[], map[], keys) && Valid()
    {
      this.rows, this.keys := rows, keys;
      pending, timers, sending, serials, issued := [], map[], {}, map[], map[];
    }

    function View(): State
      reads this
    {
      State(rows, pending, timers, sending, serials, issued, keys)
    }

    /** Every pending entry has its row, whatever collides. */
    predicate Valid()
      reads this
    {
      forall e :: e in pending ==> e.id < |rows|
    }

    // ---------- the command table ----------

    /** updateCommand: nothing happens when there is no such command. */
    method UpdateCommand(id: CommandId, row: Row)
      modifies this`rows
      ensures rows == if id < |old(rows)| then old(rows)[id := row] else old(rows)
    {
      if id < |rows| {
        rows := rows[id := row];
      }
    }

    /** findCommandByBusinessSerial, for the statuses onOperationReply asks for: keeps the last match. */
    method FindCommandByBusinessSerial(d: DeviceId, serial: nat) returns (found: Option<CommandId>)
      ensures found == FindLate(rows, d, serial)
    {
      found := None;
      for i := 0 to |rows|
        invariant found == FindLate(rows[..i], d, serial)
      {
        assert rows[..i + 1][..i] == rows[..i];
        if Late(rows[i], d, serial) {
          found := Some(i);
        }
      }
      assert rows[..|rows|] == rows;
    }

    /** failOpenCommands. */
    method FailOpenCommands()
      modifies this`rows
      ensures rows == FailOpenRows(old(rows))
    {
      ghost var before := rows;
      for i := 0 to |rows|
        invariant |rows| == |before|
        invariant forall j :: 0 <= j < i ==> rows[j] == FailOpen(before[j])
        invariant forall j :: i <= j < |rows| ==> rows[j] == before[j]
      {
        if Open(rows[i].status) {
          var outcome := if rows[i].outcome.None? then Some(TimedOut) else rows[i].outcome;
          rows := rows[i := rows[i].(status := Timeout, outcome := outcome)];
        }
      }
      assert rows == FailOpenRows(before);
    }

    // ---------- execute ----------

    method NextBusinessSerial(d: DeviceId, seed: nat) returns (serial: nat)
      modifies this`serials, this`issued
      ensures serial == BusinessSerial(old(View()), d, seed) && 1 <= serial <= SERIALS
      ensures serials == old(serials)[d := serial]
      ensures issued
          == old(issued)[d := var before := IssuedTo(old(View()), d, seed); before.(count := before.count + 1)]
    {
      var s := if d in serials then serials[d] else seed;
      var before := IssuedTo(View(), d, seed);
      serial := s % SERIALS + 1;
      serials := serials[d := serial];
      issued := issued[d := before.(count := before.count + 1)];
    }

    /** execute for a connected device, up to the wait for send: the entry is registered before anything is written. */
    method ExecuteBegin(r: Request, seed: nat, written: Option<word>) returns (id: CommandId)
      requires Valid()
      modifies this
      ensures View() == BeginStep(old(View()), r, seed, written) && Valid()
      ensures id == |old(rows)|
    {
      hide Put, Without, NextSerial;
      var issue := IssuedTo(View(), r.device, seed).count + 1;
      var serial := NextBusinessSerial(r.device, seed);
      id := |rows|;
      rows := rows + [NewRow(r, serial, Pending)];
      var entry := Entry(id, r.device, r.session, r.command, 0, serial, r.key, false, issue);
      ghost var before := pending;
      pending := Put(pending, entry);
      match written {
        case None =>
          pending := Without(pending, entry.KeyOf());
          UpdateCommand(id, NewRow(r, serial, SendFailed));
          WithoutPut(before, entry);
        case Some(jt808) =>
          var sent := entry.(jt808Serial := jt808);
          pending := Put(pending, sent);
          timers := timers[id := entry.KeyOf()];
          sending := sending + {id};
          PutPut(before, entry, sent);
      }
    }

    /** execute for a device that is not connected or not authenticated. */
    method ExecuteRefused(r: Request) returns (id: CommandId)
      requires Valid()
      modifies this
      ensures View() == RefuseStep(old(View()), r) && Valid()
      ensures id == |old(rows)|
    {
      id := |rows|;
      rows := rows + [NewRow(r, 0, SendFailed)];
    }

    /** The tail of execute: the status becomes sent only if the very same entry is still pending, unacknowledged. */
    method ExecuteEnd(id: CommandId)
      requires Enabled(View(), End(id))
      requires Valid()
      modifies this
      ensures View() == EndStep(old(View()), id) && Valid()
    {
      var stillOpen := false;
      for i := 0 to |pending|
        invariant stillOpen <==> exists k :: 0 <= k < i && pending[k].id == id && !pending[k].acked
      {
        if pending[i].id == id && !pending[i].acked {
          stillOpen := true;
        }
      }
      sending := sending - {id};
      if id < |rows| && stillOpen {
        UpdateCommand(id, rows[id].(status := Sent));
      }
    }

    // ---------- endings ----------

    method FinishEntry(e: Entry)
      modifies this`timers, this`pending
      ensures View() == Finish(old(View()), e)
    {
      timers := timers - {e.id};
      pending := Without(pending, e.KeyOf());
    }

    /** onTimeout: asks only whether its key is still in the map. */
    method OnTimeout(id: CommandId)
      requires Enabled(View(), TimerFires(id))
      requires Valid()
      modifies this
      ensures View() == TimeoutStep(old(View()), id) && Valid()
    {
      var k := timers[id];
      timers := timers - {id};
      var entry := Lookup(pending, k);
      if entry.Some? && id < |rows| {
        UpdateCommand(id, rows[id].(status := Timeout, outcome := Some(TimedOut)));
        pending := Without(pending, k);
      }
    }

    /** The search of onTerminalAck. */
    method FindEntrySent(session: SessionId, serial: word) returns (entry: Option<Entry>)
      ensures entry == FindSent(pending, session, serial)
    {
      for i := 0 to |pending|
        invariant FindSent(pending, session, serial) == FindSent(pending[i..], session, serial)
      {
        if pending[i].session == session && pending[i].jt808Serial == serial {
          return Some(pending[i]);
        }
        assert pending[i..][1..] == pending[i + 1..];
      }
      return None;
    }

    method OnTerminalAck(session: SessionId, serial: word, result: byte)
      requires Valid()
      modifies this
      ensures View() == AckStep(old(View()), session, serial, result) && Valid()
    {
      var entry := FindEntrySent(session, serial);
      if entry.None? {
        return;
      }
      var e := entry.value;
      if result == 0 {
        pending := MarkAcked(pending, e.KeyOf());
        UpdateCommand(e.id, rows[e.id].(status := Acknowledged));
      } else {
        pending := MarkAcked(pending, e.KeyOf());
        UpdateCommand(e.id, rows[e.id].(status := Rejected, outcome := Some(Failure)));
        WithoutMarked(old(pending), e.KeyOf());
        FinishEntry(e);
      }
    }

    /** The fallback of onOperationReply: the first entry with the least JT/T 808 serial. */
    method FindOldest(d: DeviceId, command: Command) returns (best: Option<Entry>)
      ensures best == Oldest(pending, d, command)
    {
      best := None;
      for i := 0 to |pending|
        invariant Earlier(best, Oldest(pending[i..], d, command)) == Oldest(pending, d, command)
      {
        ghost var was := best;
        assert pending[i..][0] == pending[i] && pending[i..][1..] == pending[i + 1..];
        if IsFor(pending[i], d, command) && (best.None? || pending[i].jt808Serial < best.value.jt808Serial) {
          best := Some(pending[i]);
        }
      }
      assert pending[|pending|..] == [];
    }

    method OnOperationReply(d: DeviceId, r: ReplyInfo)
      requires Valid()
      modifies this
      ensures View() == ReplyStep(old(View()), d, r) && Valid()
    {
      var entry := Lookup(pending, PendingKey(d, r.serial));
      var found: Option<CommandId> := None;
      var via := ByBusinessSerial;
      if entry.Some? {
        found := Some(entry.value.id);
      } else {
        var late := FindCommandByBusinessSerial(d, r.serial);
        if late.Some? && r.serial != 0 {
          found, via := late, LateBusinessSerial;
        }
      }
      var result := ResultOf(r.code);
      if found.None? && result.Some? && r.fromPlatform {
        entry := FindOldest(d, result.value.command);
        if entry.Some? {
          found, via := Some(entry.value.id), OldestPending;
        }
      }
      assert found.Some? <==> Correlate(View(), d, r).Some?;
      if found.None? {
        return;
      }
      assert Correlate(View(), d, r) == Some(Match(found.value, via, entry));
      hide Correlate;
      var id := found.value;
      var row := rows[id];
      var outcome := ReplyOutcome(row, r);
      UpdateCommand(id, row.(status := Completed, outcome := Some(outcome),
                             resultCode := Some(r.code), via := Some(via)));
      if outcome == Success && row.command == Seal {
        keys := keys[d := StoredKey(if entry.Some? then entry.value.key else row.key, row.keyFormat)];
      }
      if entry.Some? {
        FinishEntry(entry.value);
      }
    }

    /** A new process on the same table: nothing that was in memory is left, then recoverAfterRestart. */
    method Restarted()
      requires Valid()
      modifies this
      ensures View() == RestartStep(old(View())) && Valid()
    {
      pending, timers, sending, serials, issued := [], map[], {}, map[], map[];
      FailOpenCommands();
    }
  }

  // ---------- steps of the methods ----------

  lemma {:induction false} WithoutIsIdle(pending: seq<Entry>, k: PendingKey)
    requires forall e :: e in pending ==> e.KeyOf() != k
    ensures Without(pending, k) == pending
  {
    if pending != [] {
      WithoutIsIdle(pending[1..], k);
    }
  }

  lemma {:induction false} WithoutPut(pending: seq<Entry>, e: Entry)
    ensures Without(Put(pending, e), e.KeyOf()) == Without(pending, e.KeyOf())
  {
    if pending == [] {
      assert [e][1..] == [];
    } else if pending[0].KeyOf() == e.KeyOf() {
      var rest := Without(pending[1..], e.KeyOf());
      assert ([e] + rest)[1..] == rest;
      WithoutIsIdle(rest, e.KeyOf());
    } else {
      WithoutPut(pending[1..], e);
      assert ([pending[0]] + Put(pending[1..], e))[1..] == Put(pending[1..], e);
    }
  }

  lemma {:induction false} PutPut(pending: seq<Entry>, e: Entry, f: Entry)
    requires e.KeyOf() == f.KeyOf()
    ensures Put(Put(pending, e), f) == Put(pending, f)
  {
    if pending == [] {
      assert [e][1..] == [];
    } else if pending[0].KeyOf() == e.KeyOf() {
      var rest := Without(pending[1..], e.KeyOf());
      assert ([e] + rest)[1..] == rest;
      WithoutIsIdle(rest, e.KeyOf());
    } else {
      PutPut(pending[1..], e, f);
      assert ([pending[0]] + Put(pending[1..], e))[1..] == Put(pending[1..], e);
    }
  }

  lemma {:induction false} WithoutMarked(pending: seq<Entry>, k: PendingKey)
    ensures Without(MarkAcked(pending, k), k) == Without(pending, k)
  {
    if pending != [] {
      assert MarkAcked(pending, k)[1..] == MarkAcked(pending[1..], k);
      WithoutMarked(pending[1..], k);
    }
  }

  /** The one with the lesser JT/T 808 serial, the first on a tie. */
  function Earlier(a: Option<Entry>, b: Option<Entry>): Option<Entry>
  {
    if a.None? then b else if b.None? then a else if a.value.jt808Serial <= b.value.jt808Serial then a else b
  }
}
