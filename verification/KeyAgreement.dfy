/** The command service and the simulated lock joined by a connection that loses and reorders nothing: the key the
    server stores for a device and the key in its lock agree. */
module KeyAgreement {
  import opened Bytes
  import opened Elock
  import opened Commands
  import opened CommandLaws
  import opened CommandSafety
  import L = SimLock

  /** A command on its way. `id` and `issue` name the row and the turn it came from; only proofs read them. */
  datatype Carried = Carried(id: CommandId, issue: nat, serial: nat, jt808: word, op: L.Operation)

  /** What the lock sends: delivery acknowledgements and operation replies, with the command a reply answers. */
  datatype Uplink = Delivered(jt808: word) | Answer(info: ReplyInfo, cause: Option<Carried>)

  /** One device on one session: its lock, commands being delivered, commands waiting out the reply delay, uplinks. */
  datatype System = System(device: DeviceId, session: SessionId, own: string, server: State, lock: L.Lock,
                           down: seq<Carried>, queue: seq<Carried>, up: seq<Uplink>, remotelySealed: bool)

  datatype SystemEvent =
    | Issue(request: Request, seed: nat, written: Option<word>)
    | AtServer(event: Event)
    | Deliver
    | Operate
    | AtLock(lockEvent: L.LockEvent)
    | Receive

  // ---------- steps ----------

  function Causes(up: seq<Uplink>): seq<Carried>
  {
    if up == [] then [] else (if up[0].Answer? && up[0].cause.Some? then [up[0].cause.value] else []) + Causes(up[1..])
  }

  /** Every command whose outcome the server has not heard, oldest first. */
  function InFlight(s: System): seq<Carried>
  {
    Causes(s.up) + (s.queue + s.down)
  }

  function CarriedFor(s: State, r: Request, seed: nat, jt808: word): Carried
    requires KeyBytes(r.key, r.keyFormat).Ok?
  {
    Carried(|s.rows|, IssuedTo(s, r.device, seed).count + 1, BusinessSerial(s, r.device, seed), jt808,
         L.Operation(CommandByte(r.command), Some(r.lockId), KeyBytes(r.key, r.keyFormat).value))
  }

  /** Events of the server other than this device's commands and replies and this session's acknowledgements; the server
      is not restarted. */
  predicate Elsewhere(s: System, e: Event)
  {
    match e
    case Begin(r, _, _) => r.device != s.device
    case Ack(session, _, _) => session != s.session
    case Reply(d, _) => d != s.device
    case Restart => false
    case _ => true
  }

  predicate Possible(s: System, e: SystemEvent)
  {
    match e
    case Issue(r, seed, written) =>
      r.device == s.device && r.session == s.session && Enabled(s.server, Begin(r, seed, written))
    case AtServer(event) => Enabled(s.server, event) && Elsewhere(s, event)
    case Deliver => s.down != []
    case Operate => s.queue != []
    case AtLock(event) => !event.Remote?
    case Receive => s.up != []
  }

  /** The lock answers operations for its own LockID only. */
  predicate ForLock(own: string, x: Carried)
  {
    x.op.lockId == Some(own)
  }

  /** No command in flight for this lock has the business serial that the next command would get. */
  predicate SerialClear(s: System, seed: nat)
  {
    forall x :: x in InFlight(s) && ForLock(s.own, x) ==> x.serial != BusinessSerial(s.server, s.device, seed)
  }

  /** No command is written to the device under the serial of a command in flight for its lock. */
  predicate Clear(s: System, e: SystemEvent)
  {
    match e
    case Issue(_, seed, Some(_)) => SerialClear(s, seed)
    case _ => true
  }

  /** The lock's reply to a keypad operation: serial 0, source keypad. */
  function KeypadReplies(lock: L.Lock, own: string, e: L.LockEvent): seq<Uplink>
  {
    if e.KeypadUnseal? || e.KeypadSeal? then
      [Answer(ReplyInfo(0, L.KeypadCode(lock, e.KeypadUnseal?), Some(own), SourceOf(0x02) == Platform), None)]
    else []
  }

  /** handlePassthrough after its delay: the reply repeats the command's serial, source platform. */
  function Answers(s: System, x: Carried): seq<Uplink>
  {
    match L.Code(s.lock, s.own, x.op)
    case None => []
    case Some(code) => [Answer(ReplyInfo(x.serial, code, Some(s.own), SourceOf(0x04) == Platform), Some(x))]
  }

  function Heard(s: System, m: Uplink): State
  {
    match m
    case Delivered(jt808) => AckStep(s.server, s.session, jt808, 0)
    case Answer(info, _) => ReplyStep(s.server, s.device, info)
  }

  function Next(s: System, e: SystemEvent): System
    requires Possible(s, e)
  {
    match e
    case Issue(r, seed, written) =>
      s.(server := BeginStep(s.server, r, seed, written),
         down := s.down + if written.Some? then [CarriedFor(s.server, r, seed, written.value)] else [])
    case AtServer(event) => s.(server := Step(s.server, event))
    case Deliver => s.(down := s.down[1..], queue := s.queue + [s.down[0]], up := s.up + [Delivered(s.down[0].jt808)])
    case Operate =>
      var x := s.queue[0];
      s.(queue := s.queue[1..], up := s.up + Answers(s, x), lock := L.Next(s.lock, s.own, L.Remote(x.op)),
         remotelySealed := s.remotelySealed || L.Code(s.lock, s.own, x.op) == Some(0x80))
    case AtLock(event) => s.(lock := L.Next(s.lock, s.own, event), up := s.up + KeypadReplies(s.lock, s.own, event))
    case Receive => s.(server := Heard(s, s.up[0]), up := s.up[1..])
  }

  // ---------- the invariant ----------

  /** A command in flight for the lock: its row is still open or timed out, and its serial finds it. */
  predicate FlightOk(s: State, d: DeviceId, session: SessionId, x: Carried)
  {
    && x.id < |s.rows|
    && var row := s.rows[x.id];
    && RowKey(row) == PendingKey(d, x.serial) && x.serial != 0 && OpenOrLate(row.status) && PlatformCommand(row.command)
    && x.op == L.Operation(CommandByte(row.command), Some(row.lockId), x.op.key)
    && KeyBytes(row.key, row.keyFormat) == Ok(x.op.key)
    && LaterUnsent(s, RowKey(row), x.id) && OnlyPending(s.pending, RowKey(row), x.id, session)
  }

  /** Of the later rows under the key none was written, and no timer is armed for any. */
  predicate LaterUnsent(s: State, k: PendingKey, id: CommandId)
  {
    forall j :: id < j < |s.rows| && RowKey(s.rows[j]) == k ==> s.rows[j].status == SendFailed && j !in s.timers
  }

  predicate OnlyPending(pending: seq<Entry>, k: PendingKey, id: CommandId, session: SessionId)
  {
    forall e :: e in pending && e.KeyOf() == k ==> e.id == id && e.session == session
  }

  predicate AllFlightOk(s: State, d: DeviceId, session: SessionId, own: string, flight: seq<Carried>)
  {
    forall x :: x in flight && ForLock(own, x) ==> FlightOk(s, d, session, x)
  }

  predicate Ordered(flight: seq<Carried>, rows: nat)
  {
    && (forall i, j :: 0 <= i < j < |flight| ==> flight[i].id < flight[j].id)
    && forall x :: x in flight ==> x.id < rows
  }

  /** Replies say what the lock did: those to a command repeat its serial and LockID with a code of its type. */
  predicate UplinkOk(own: string, m: Uplink)
  {
    m.Answer? ==>
      match m.cause
      case None => m.info.serial == 0 && !m.info.fromPlatform
      case Some(x) =>
        && m.info.serial == x.serial && m.info.lockId == Some(own) && x.op.lockId == Some(own)
        && ResultOf(m.info.code).Some? && CommandOf(x.op.cmd) == Some(ResultOf(m.info.code).value.command)
  }

  predicate UplinksOk(own: string, up: seq<Uplink>)
  {
    forall m :: m in up ==> UplinkOk(own, m)
  }

  predicate IsSealed(m: Uplink)
  {
    m.Answer? && m.cause.Some? && m.info.code == SuccessCode(Seal)
  }

  /** The key of the last successful seal whose reply is still on its way. */
  function SealOnItsWay(up: seq<Uplink>): Option<seq<byte>>
  {
    if up == [] then None
    else
      var later := SealOnItsWay(up[1..]);
      if later.Some? then later else if IsSealed(up[0]) then Some(up[0].cause.value.op.key) else None
  }

  predicate StoredAgrees(s: System)
  {
    && s.lock.key.Some? && s.device in s.server.keys
    && KeyBytes(s.server.keys[s.device].key, s.server.keys[s.device].format) == Ok(s.lock.key.value)
  }

  predicate KeysOk(s: System)
  {
    s.remotelySealed ==>
      var onItsWay := SealOnItsWay(s.up);
      if onItsWay.Some? then s.lock.key == onItsWay else StoredAgrees(s)
  }

  predicate Good(s: System)
  {
    && Sound(s.server) && AllFlightOk(s.server, s.device, s.session, s.own, InFlight(s))
    && Ordered(InFlight(s), |s.server.rows|) && UplinksOk(s.own, s.up) && KeysOk(s)
  }

  // ---------- the queues ----------

  lemma {:induction false} CausesAppend(up: seq<Uplink>, more: seq<Uplink>)
    ensures Causes(up + more) == Causes(up) + Causes(more)
  {
    if up == [] {
      assert up + more == more;
    } else {
      assert (up + more)[1..] == up[1..] + more;
      CausesAppend(up[1..], more);
    }
  }

  lemma {:induction false} SealAppend(up: seq<Uplink>, m: Uplink)
    ensures SealOnItsWay(up + [m]) == if IsSealed(m) then Some(m.cause.value.op.key) else SealOnItsWay(up)
  {
    if up == [] {
      assert up + [m] == [m];
    } else {
      assert (up + [m])[1..] == up[1..] + [m];
      SealAppend(up[1..], m);
    }
  }

  lemma DeliverFlight(s: System)
    requires s.down != []
    ensures InFlight(Next(s, Deliver)) == InFlight(s)
  {
    CausesAppend(s.up, [Delivered(s.down[0].jt808)]);
    assert Causes([Delivered(s.down[0].jt808)]) == [];
    assert s.queue + [s.down[0]] + s.down[1..] == s.queue + s.down;
  }

  lemma KeypadFlight(s: System, e: L.LockEvent)
    ensures Causes(s.up + KeypadReplies(s.lock, s.own, e)) == Causes(s.up)
  {
    CausesAppend(s.up, KeypadReplies(s.lock, s.own, e));
    assert Causes(KeypadReplies(s.lock, s.own, e)) == [];
  }

  lemma MoveOne(a: seq<Carried>, x: Carried, b: seq<Carried>, c: seq<Carried>)
    ensures (a + [x]) + (b + c) == a + (([x] + b) + c)
  {
  }

  /** Operating moves the command into its reply, or drops it when the lock stays silent. */
  lemma OperateFlight(s: System)
    requires s.queue != []
    ensures
      var x := s.queue[0];
      InFlight(Next(s, Operate)) == if L.Code(s.lock, s.own, x.op).Some? then InFlight(s)
        else Causes(s.up) + (s.queue[1..] + s.down)
  {
    var x := s.queue[0];
    CausesAppend(s.up, Answers(s, x));
    assert s.queue == [x] + s.queue[1..];
    if L.Code(s.lock, s.own, x.op).Some? {
      assert Causes(Answers(s, x)) == [x];
      MoveOne(Causes(s.up), x, s.queue[1..], s.down);
    } else {
      assert Causes(s.up) + [] == Causes(s.up);
    }
  }

  lemma CausesFirst(m: Uplink, up: seq<Uplink>)
    ensures Causes([m] + up) == (if m.Answer? && m.cause.Some? then [m.cause.value] else []) + Causes(up)
  {
    assert ([m] + up)[1..] == up;
  }

  lemma Regroup(a: seq<Carried>, b: seq<Carried>, c: seq<Carried>)
    ensures (a + b) + c == a + (b + c)
  {
  }

  lemma ReceiveFlight(s: System)
    requires s.up != []
    ensures
      InFlight(s) == (if s.up[0].Answer? && s.up[0].cause.Some? then [s.up[0].cause.value] else [])
        + InFlight(Next(s, Receive))
  {
    var first := if s.up[0].Answer? && s.up[0].cause.Some? then [s.up[0].cause.value] else [];
    assert s.up == [s.up[0]] + s.up[1..];
    CausesFirst(s.up[0], s.up[1..]);
    hide Heard, Causes;
    Regroup(first, Causes(s.up[1..]), s.queue + s.down);
  }

  // ---------- server steps that leave the device's commands alone ----------

  /** Nothing happens to the device's keys, its open and late rows stay so unless they are another session's, and no row
      or entry of it appears. */
  predicate Calm(s: State, t: State, d: DeviceId, session: SessionId)
  {
    && SameCommands(s, t) && UnsentStay(s, t) && StaysCorrelatable(s, t, d, session)
    && (forall i :: |s.rows| <= i < |t.rows| ==> t.rows[i].device != d || t.rows[i].serial == 0)
    && (forall e :: e in t.pending ==> Inherited(s.pending, e) || e.device != d)
    && (d in s.keys <==> d in t.keys) && (d in s.keys ==> t.keys[d] == s.keys[d])
  }

  predicate SameCommands(s: State, t: State)
  {
    |s.rows| <= |t.rows| && forall i :: 0 <= i < |s.rows| ==> SameCommand(s.rows[i], t.rows[i])
  }

  /** A command that was never written and has no timer stays that way. */
  predicate UnsentStay(s: State, t: State)
  {
    forall i :: 0 <= i < |s.rows| && i < |t.rows| && s.rows[i].status == SendFailed && i !in s.timers ==>
      t.rows[i].status == SendFailed && i !in t.timers
  }

  lemma StepKeepsRows(s: State, e: Event)
    requires Sound(s) && Enabled(s, e)
    ensures SameCommands(s, Step(s, e)) && UnsentStay(s, Step(s, e))
  {
    hide Sound, Step, SameCommand;
    RowsGrow(s, e);
    forall i: CommandId | i < |s.rows|
      ensures SameCommand(s.rows[i], Step(s, e).rows[i])
      ensures s.rows[i].status == SendFailed && i !in s.timers ==>
          Step(s, e).rows[i].status == SendFailed && i !in Step(s, e).timers
    {
      StepKeepsCommand(s, e, i);
      StepAdvances(s, e, i);
    }
  }

  predicate StaysCorrelatable(s: State, t: State, d: DeviceId, session: SessionId)
  {
    forall i :: 0 <= i < |s.rows| && i < |t.rows| && s.rows[i].device == d && OpenOrLate(s.rows[i].status) ==>
      OpenOrLate(t.rows[i].status) || PendingElsewhere(s.pending, i, session)
  }

  predicate PendingElsewhere(pending: seq<Entry>, id: CommandId, session: SessionId)
  {
    exists e :: e in pending && e.id == id && e.session != session
  }

  predicate Inherited(pending: seq<Entry>, e: Entry)
  {
    exists f :: f in pending && f.KeyOf() == e.KeyOf() && f.id == e.id && f.session == e.session
  }

  lemma CalmKeepsFlight(s: State, t: State, d: DeviceId, session: SessionId, x: Carried)
    requires Sound(s) && Calm(s, t, d, session) && FlightOk(s, d, session, x)
    ensures FlightOk(t, d, session, x)
  {
    hide KeyBytes, Sound;
    assert SameCommand(s.rows[x.id], t.rows[x.id]);
    forall e | e in s.pending && e.id == x.id ensures e.session == session {
      IsAnchored(s, e);
    }
    forall j | x.id < j < |t.rows| && RowKey(t.rows[j]) == PendingKey(d, x.serial)
      ensures t.rows[j].status == SendFailed && j !in t.timers
    {
      if j < |s.rows| {
        assert SameCommand(s.rows[j], t.rows[j]);
      }
    }
    forall e | e in t.pending && e.KeyOf() == PendingKey(d, x.serial) ensures e.id == x.id && e.session == session {
      var f :| f in s.pending && f.KeyOf() == e.KeyOf() && f.id == e.id && f.session == e.session;
    }
  }

  lemma SamePendingInherits(before: seq<Entry>, after: seq<Entry>)
    requires forall e :: e in after ==> e in before
    ensures forall e :: e in after ==> Inherited(before, e)
  {
  }

  lemma RefuseCalm(s: State, r: Request, d: DeviceId, session: SessionId)
    ensures Calm(s, RefuseStep(s, r), d, session)
  {
    SamePendingInherits(s.pending, s.pending);
  }

  lemma BeginElsewhereCalm(s: State, r: Request, seed: nat, written: Option<word>, d: DeviceId, session: SessionId)
    requires TimersKeyed(s.rows, s.timers) && r.device != d
    ensures Calm(s, BeginStep(s, r, seed, written), d, session)
  {
    hide NextSerial;
    SamePendingInherits(s.pending, s.pending);
  }

  /** A step that leaves the pending map and the keys alone, or only drops entries, and closes no row of the device. */
  lemma DroppingCalm(s: State, t: State, d: DeviceId, session: SessionId)
    requires SameCommands(s, t) && UnsentStay(s, t) && StaysCorrelatable(s, t, d, session)
    requires |t.rows| == |s.rows| && (forall e :: e in t.pending ==> e in s.pending)
    requires (d in s.keys <==> d in t.keys) && (d in s.keys ==> t.keys[d] == s.keys[d])
    ensures Calm(s, t, d, session)
  {
    hide SameCommands, UnsentStay, StaysCorrelatable;
    SamePendingInherits(s.pending, t.pending);
  }

  lemma EndCalm(s: State, id: CommandId, d: DeviceId, session: SessionId)
    requires Sound(s) && id in s.sending
    ensures Calm(s, EndStep(s, id), d, session)
  {
    hide Sound, StillOpen, SameCommands, UnsentStay;
    StepKeepsRows(s, End(id));
    DroppingCalm(s, EndStep(s, id), d, session);
  }

  lemma TimeoutCalm(s: State, id: CommandId, d: DeviceId, session: SessionId)
    requires Sound(s) && id in s.timers
    ensures Calm(s, TimeoutStep(s, id), d, session)
  {
    hide Sound, SameCommands, UnsentStay, Calm;
    StepKeepsRows(s, TimerFires(id));
    DroppingCalm(s, TimeoutStep(s, id), d, session);
  }

  lemma MarkedInherits(pending: seq<Entry>, k: PendingKey)
    ensures forall e :: e in MarkAcked(pending, k) ==> Inherited(pending, e)
  {
    forall e | e in MarkAcked(pending, k) ensures Inherited(pending, e) {
      var i :| 0 <= i < |pending| && MarkAcked(pending, k)[i] == e;
      assert pending[i] in pending;
    }
  }

  /** An acknowledgement of success, whatever the session it comes from. */
  lemma DeliveredCalm(s: State, from: SessionId, serial: word, d: DeviceId, session: SessionId)
    requires Sound(s)
    ensures Calm(s, AckStep(s, from, serial, 0), d, session)
  {
    hide Sound, SameCommands, UnsentStay, Inherited, MarkAcked;
    StepKeepsRows(s, Ack(from, serial, 0));
    SamePendingInherits(s.pending, s.pending);
    var found := FindSent(s.pending, from, serial);
    if found.Some? {
      IsAnchored(s, found.value);
      MarkedInherits(s.pending, found.value.KeyOf());
    }
  }

  /** An acknowledgement of failure, from another session. */
  lemma RejectedCalm(s: State, from: SessionId, serial: word, result: byte, d: DeviceId, session: SessionId)
    requires Sound(s) && from != session && result != 0
    ensures Calm(s, AckStep(s, from, serial, result), d, session)
  {
    hide Sound, SameCommands, UnsentStay, Without;
    StepKeepsRows(s, Ack(from, serial, result));
    DroppingCalm(s, AckStep(s, from, serial, result), d, session);
  }

  lemma ReplyPending(s: State, d: DeviceId, r: ReplyInfo)
    ensures forall e :: e in ReplyStep(s, d, r).pending ==> e in s.pending
    ensures ReplyStep(s, d, r).serials == s.serials && ReplyStep(s, d, r).issued == s.issued
  {
    hide Correlate, ReplyOutcome, WrongLock;
  }

  lemma ReplyElsewhereCalm(s: State, from: DeviceId, r: ReplyInfo, d: DeviceId, session: SessionId)
    requires Sound(s) && from != d
    ensures Calm(s, ReplyStep(s, from, r), d, session)
  {
    hide Sound, ReplyStep, SameCommands, UnsentStay;
    StepKeepsRows(s, Event.Reply(from, r));
    ReplyPending(s, from, r);
    var id := ReplyChangesOne(s, from, r);
    DroppingCalm(s, ReplyStep(s, from, r), d, session);
  }

  lemma ServerCalm(s: System, e: Event)
    requires Sound(s.server) && Enabled(s.server, e) && Elsewhere(s, e)
    ensures Calm(s.server, Step(s.server, e), s.device, s.session)
  {
    hide Calm;
    match e
    case Begin(r, seed, written) => BeginElsewhereCalm(s.server, r, seed, written, s.device, s.session);
    case Refuse(r) => RefuseCalm(s.server, r, s.device, s.session);
    case End(id) => EndCalm(s.server, id, s.device, s.session);
    case Ack(from, serial, result) =>
      if result == 0 {
        DeliveredCalm(s.server, from, serial, s.device, s.session);
      } else {
        RejectedCalm(s.server, from, serial, result, s.device, s.session);
      }
    case TimerFires(id) => TimeoutCalm(s.server, id, s.device, s.session);
    case Reply(d, r) => ReplyElsewhereCalm(s.server, d, r, s.device, s.session);
    case Restart => assert false;
  }

  // ---------- every event keeps the invariant ----------

  lemma CalmKeepsAll(s: System, t: State)
    requires Sound(s.server) && Calm(s.server, t, s.device, s.session)
    requires AllFlightOk(s.server, s.device, s.session, s.own, InFlight(s)) && Ordered(InFlight(s), |s.server.rows|)
    ensures AllFlightOk(t, s.device, s.session, s.own, InFlight(s)) && Ordered(InFlight(s), |t.rows|)
  {
    hide InFlight, Sound, FlightOk;
    forall x | x in InFlight(s) && ForLock(s.own, x) ensures FlightOk(t, s.device, s.session, x) {
      CalmKeepsFlight(s.server, t, s.device, s.session, x);
    }
  }

  lemma CalmKeepsKeys(s: System, t: State)
    requires Calm(s.server, t, s.device, s.session) && KeysOk(s)
    ensures KeysOk(s.(server := t))
  {
    hide KeyBytes, SameCommands;
  }

  lemma AtServerKeeps(s: System, e: Event)
    requires Good(s) && Possible(s, AtServer(e))
    ensures Good(Next(s, AtServer(e)))
  {
    hide Sound, Calm, KeysOk, AllFlightOk, Ordered, Step;
    ServerCalm(s, e);
    StepKeepsSound(s.server, e);
    CalmKeepsAll(s, Step(s.server, e));
    CalmKeepsKeys(s, Step(s.server, e));
  }

  lemma DeliverKeeps(s: System)
    requires Good(s) && Possible(s, Deliver)
    ensures Good(Next(s, Deliver))
  {
    hide Sound, AllFlightOk, InFlight, Ordered, FlightOk;
    DeliverFlight(s);
    SealAppend(s.up, Delivered(s.down[0].jt808));
  }

  lemma AtLockKeeps(s: System, e: L.LockEvent)
    requires Good(s) && Possible(s, AtLock(e))
    ensures Good(Next(s, AtLock(e)))
  {
    KeypadFlight(s, e);
    hide Sound, AllFlightOk, Ordered, KeyBytes;
    if e.KeypadUnseal? || e.KeypadSeal? {
      SealAppend(s.up, KeypadReplies(s.lock, s.own, e)[0]);
    } else {
      assert s.up + [] == s.up;
    }
  }

  // ---------- operating the lock ----------

  lemma CarriedCommand(s: State, d: DeviceId, session: SessionId, x: Carried)
    requires FlightOk(s, d, session, x)
    ensures x.id < |s.rows|
    ensures CommandOf(x.op.cmd) == Some(s.rows[x.id].command) && PlatformCommand(s.rows[x.id].command)
    ensures x.op.lockId == Some(s.rows[x.id].lockId)
  {
    OneSuccessCode(x.op.cmd, s.rows[x.id].command);
  }

  lemma HeadInFlight(s: System)
    requires s.queue != []
    ensures s.queue[0] in InFlight(s)
  {
    assert (s.queue + s.down)[0] == s.queue[0];
    assert s.queue[0] in s.queue + s.down;
  }

  lemma AnswerOk(s: System, x: Carried)
    requires ForLock(s.own, x) ==> FlightOk(s.server, s.device, s.session, x)
    ensures forall m :: m in Answers(s, x) ==> UplinkOk(s.own, m)
  {
    hide FlightOk;
    if L.Code(s.lock, s.own, x.op).Some? {
      CarriedCommand(s.server, s.device, s.session, x);
      L.CodesTellTheTruth(s.lock, s.own, x.op, s.server.rows[x.id].command);
    }
  }

  lemma DropOrdered(a: seq<Carried>, x: Carried, b: seq<Carried>, rows: nat)
    requires Ordered(a + ([x] + b), rows)
    ensures Ordered(a + b, rows) && forall y :: y in a + b ==> y in a + ([x] + b)
  {
    var all := a + ([x] + b);
    assert forall i :: 0 <= i < |a| ==> all[i] == (a + b)[i];
    assert forall i :: |a| <= i < |a + b| ==> all[i + 1] == (a + b)[i];
  }

  lemma OperateKeepsFlight(s: System)
    requires s.queue != [] && AllFlightOk(s.server, s.device, s.session, s.own, InFlight(s))
    requires Ordered(InFlight(s), |s.server.rows|)
    ensures
      var t := Next(s, Operate);
      AllFlightOk(t.server, s.device, s.session, s.own, InFlight(t)) && Ordered(InFlight(t), |t.server.rows|)
  {
    hide FlightOk, Ordered, Causes, L.Code, Answers;
    OperateFlight(s);
    var x := s.queue[0];
    assert s.queue + s.down == [x] + (s.queue[1..] + s.down);
    if L.Code(s.lock, s.own, x.op).None? {
      DropOrdered(Causes(s.up), x, s.queue[1..] + s.down, |s.server.rows|);
    }
  }

  lemma OperateKeepsKeys(s: System)
    requires s.queue != [] && KeysOk(s)
    ensures KeysOk(Next(s, Operate))
  {
    hide KeyBytes, InFlight;
    var x := s.queue[0];
    var answers := Answers(s, x);
    if answers == [] {
      assert s.up + [] == s.up;
    } else {
      SealAppend(s.up, answers[0]);
    }
  }

  lemma OperateKeeps(s: System)
    requires Good(s) && Possible(s, Operate)
    ensures Good(Next(s, Operate))
  {
    HeadInFlight(s);
    OperateKeepsFlight(s);
    OperateKeepsKeys(s);
    AnswerOk(s, s.queue[0]);
    hide Sound, AllFlightOk, Ordered, KeysOk, InFlight, FlightOk, Answers;
  }

  // ---------- issuing a command ----------

  /** The rows and entries a new command adds do not disturb a command in flight unless it is written under its
      serial. */
  lemma BeginKeepsFlight(s: State, r: Request, seed: nat, written: Option<word>, session: SessionId, x: Carried)
    requires TimersKeyed(s.rows, s.timers) && FlightOk(s, r.device, session, x)
    requires written.Some? ==> BusinessSerial(s, r.device, seed) != x.serial
    ensures FlightOk(BeginStep(s, r, seed, written), r.device, session, x)
  {
    hide KeyBytes, BusinessSerial;
    var t := BeginStep(s, r, seed, written);
    assert t.rows[..|s.rows|] == s.rows;
    forall e | e in t.pending && e.KeyOf() == PendingKey(r.device, x.serial) ensures e in s.pending {
    }
  }

  lemma NewFlightOk(s: State, r: Request, seed: nat, jt808: word)
    requires Enabled(s, Begin(r, seed, Some(jt808)))
    ensures FlightOk(BeginStep(s, r, seed, Some(jt808)), r.device, r.session, CarriedFor(s, r, seed, jt808))
  {
    hide KeyBytes, NextSerial;
  }

  lemma IssueFlight(s: System, r: Request, seed: nat, written: Option<word>)
    requires Possible(s, Issue(r, seed, written))
    ensures InFlight(Next(s, Issue(r, seed, written)))
         == InFlight(s) + if written.Some? then [CarriedFor(s.server, r, seed, written.value)] else []
  {
  }

  lemma IssueKeepsFlight(s: System, r: Request, seed: nat, written: Option<word>)
    requires Good(s) && Possible(s, Issue(r, seed, written)) && Clear(s, Issue(r, seed, written))
    ensures
      var t := Next(s, Issue(r, seed, written));
      AllFlightOk(t.server, s.device, s.session, s.own, InFlight(t)) && Ordered(InFlight(t), |t.server.rows|)
  {
    var t := Next(s, Issue(r, seed, written));
    var more := if written.Some? then [CarriedFor(s.server, r, seed, written.value)] else [];
    IssueFlight(s, r, seed, written);
    if written.Some? {
      NewFlightOk(s.server, r, seed, written.value);
    }
    hide FlightOk, InFlight, CarriedFor, KeyBytes, BusinessSerial;
    forall x | x in InFlight(s) && ForLock(s.own, x) ensures FlightOk(t.server, s.device, s.session, x) {
      BeginKeepsFlight(s.server, r, seed, written, s.session, x);
    }
    OrderedAppend(InFlight(s), more, |s.server.rows|);
  }

  lemma OrderedAppend(flight: seq<Carried>, more: seq<Carried>, rows: nat)
    requires Ordered(flight, rows) && (more == [] || (|more| == 1 && more[0].id == rows))
    ensures Ordered(flight + more, rows + 1)
  {
  }

  lemma IssueKeeps(s: System, r: Request, seed: nat, written: Option<word>)
    requires Good(s) && Possible(s, Issue(r, seed, written)) && Clear(s, Issue(r, seed, written))
    ensures Good(Next(s, Issue(r, seed, written)))
  {
    IssueKeepsFlight(s, r, seed, written);
    BeginKeepsSound(s.server, r, seed, written);
    hide Sound, AllFlightOk, Ordered, InFlight, KeyBytes, BusinessSerial, CarriedFor;
  }

  // ---------- receiving ----------

  /** The reply to a command in flight completes exactly that command, and stores its key if it was a seal that
      succeeded. */
  lemma AnswerSettles(s: State, d: DeviceId, session: SessionId, own: string, m: Uplink)
    requires Sound(s) && m.Answer? && m.cause.Some? && FlightOk(s, d, session, m.cause.value) && UplinkOk(own, m)
    ensures
      var x, t := m.cause.value, ReplyStep(s, d, m.info);
      && x.id < |s.rows| && |t.rows| == |s.rows| && SameCommand(s.rows[x.id], t.rows[x.id])
      && t.rows[x.id].status == Completed && t.rows[x.id].resultCode == Some(m.info.code)
      && (forall i :: 0 <= i < |s.rows| && i != x.id ==> t.rows[i] == s.rows[i])
      && t.keys == if IsSealed(m) then s.keys[d := StoredKey(s.rows[x.id].key, s.rows[x.id].keyFormat)] else s.keys
  {
    hide Sound, Correlate, FlightOk, ReplyOutcome, Without;
    AnswerFindsIts(s, d, session, m.info, m.cause.value);
    CorrelateSound(s, d, m.info);
    AnswerSucceeds(s, d, session, own, m);
  }

  lemma AnswerSucceeds(s: State, d: DeviceId, session: SessionId, own: string, m: Uplink)
    requires m.Answer? && m.cause.Some? && FlightOk(s, d, session, m.cause.value) && UplinkOk(own, m)
    ensures
      var row := s.rows[m.cause.value.id];
      ReplyOutcome(row, m.info) == Success && row.command == Seal <==> IsSealed(m)
  {
    var x := m.cause.value;
    CarriedCommand(s, d, session, x);
    OneSuccessCode(m.info.code, s.rows[x.id].command);
    OneSuccessCode(m.info.code, Seal);
    hide FlightOk;
  }

  lemma AnswerFindsIts(s: State, d: DeviceId, session: SessionId, info: ReplyInfo, x: Carried)
    requires FlightOk(s, d, session, x) && info.serial == x.serial
    ensures Correlate(s, d, info).Some? && Correlate(s, d, info).value.id == x.id
  {
    hide KeyBytes;
    if Lookup(s.pending, PendingKey(d, x.serial)).None? {
      assert Late(s.rows[x.id], d, x.serial);
      assert forall j :: x.id < j < |s.rows| ==> !Late(s.rows[j], d, x.serial);
    }
  }

  lemma SettledKeepsFlight(s: State, t: State, d: DeviceId, session: SessionId, x: Carried, y: Carried)
    requires FlightOk(s, d, session, y) && x.id != y.id && x.id < |s.rows| == |t.rows| && x.serial != 0
    requires SameCommand(s.rows[x.id], t.rows[x.id]) && OpenOrLate(s.rows[x.id].status)
    requires forall i :: 0 <= i < |s.rows| && i != x.id ==> t.rows[i] == s.rows[i]
    requires (forall e :: e in t.pending ==> e in s.pending) && t.timers.Keys <= s.timers.Keys
    ensures FlightOk(t, d, session, y)
  {
    hide KeyBytes;
    forall j | y.id < j < |t.rows| && RowKey(t.rows[j]) == PendingKey(d, y.serial)
      ensures t.rows[j].status == SendFailed && j !in t.timers
    {
      assert RowKey(s.rows[j]) == PendingKey(d, y.serial);
    }
  }

  lemma TailOrdered(x: Carried, rest: seq<Carried>, rows: nat)
    requires Ordered([x] + rest, rows)
    ensures Ordered(rest, rows) && forall y :: y in rest ==> x.id != y.id
  {
    var all := [x] + rest;
    assert rest == all[1..] && all[0] == x;
    forall y | y in rest ensures x.id != y.id && y in all {
      var i :| 0 <= i < |rest| && all[i + 1] == y;
    }
  }

  lemma ReplyTimers(s: State, d: DeviceId, r: ReplyInfo)
    ensures ReplyStep(s, d, r).timers.Keys <= s.timers.Keys
  {
    hide Correlate, ReplyOutcome, Without;
  }

  lemma CauseInFlight(s: System)
    requires Good(s) && s.up != [] && s.up[0].Answer? && s.up[0].cause.Some?
    ensures
      var x := s.up[0].cause.value;
      && x in InFlight(s) && ForLock(s.own, x) && UplinkOk(s.own, s.up[0])
      && FlightOk(s.server, s.device, s.session, x) && InFlight(s) == [x] + InFlight(Next(s, Receive))
  {
    hide Sound, Ordered, InFlight, FlightOk, KeysOk;
    ReceiveFlight(s);
    assert s.up[0] in s.up;
  }

  lemma InFlightIs(s: State, d: DeviceId, session: SessionId, x: Carried)
    requires FlightOk(s, d, session, x)
    ensures x.id < |s.rows| && OpenOrLate(s.rows[x.id].status) && x.serial != 0
    ensures KeyBytes(s.rows[x.id].key, s.rows[x.id].keyFormat) == Ok(x.op.key)
  {
  }

  lemma ReceiveAnswerFlight(s: System)
    requires Good(s) && Possible(s, Receive) && s.up[0].Answer? && s.up[0].cause.Some?
    ensures
      var t := Next(s, Receive);
      AllFlightOk(t.server, s.device, s.session, s.own, InFlight(t)) && Ordered(InFlight(t), |t.server.rows|)
  {
    hide Sound, InFlight, FlightOk, ReplyStep, SameCommand, KeysOk, UplinkOk, Ordered;
    var m, t := s.up[0], Next(s, Receive);
    var x, rest := m.cause.value, InFlight(t);
    CauseInFlight(s);
    InFlightIs(s.server, s.device, s.session, x);
    TailOrdered(x, rest, |s.server.rows|);
    AnswerSettles(s.server, s.device, s.session, s.own, m);
    ReplyPending(s.server, s.device, m.info);
    ReplyTimers(s.server, s.device, m.info);
    forall y | y in rest && ForLock(s.own, y) ensures FlightOk(t.server, s.device, s.session, y) {
      assert y in InFlight(s);
      SettledKeepsFlight(s.server, t.server, s.device, s.session, x, y);
    }
  }

  lemma ReceiveAnswerKeys(s: System)
    requires Good(s) && Possible(s, Receive) && s.up[0].Answer? && s.up[0].cause.Some?
    ensures KeysOk(Next(s, Receive))
  {
    CauseInFlight(s);
    InFlightIs(s.server, s.device, s.session, s.up[0].cause.value);
    AnswerSettles(s.server, s.device, s.session, s.own, s.up[0]);
    hide Sound, InFlight, ReplyStep, KeyBytes, AllFlightOk, FlightOk, Ordered;
  }

  lemma ReceiveAnswerKeeps(s: System)
    requires Good(s) && Possible(s, Receive) && s.up[0].Answer? && s.up[0].cause.Some?
    ensures Good(Next(s, Receive))
  {
    ReceiveAnswerFlight(s);
    ReceiveAnswerKeys(s);
    ReplyKeepsSound(s.server, s.device, s.up[0].info);
    hide Sound, InFlight, AllFlightOk, Ordered, KeysOk, ReplyStep, UplinkOk;
  }

  lemma ReceiveDeliveredKeeps(s: System)
    requires Good(s) && Possible(s, Receive) && s.up[0].Delivered?
    ensures Good(Next(s, Receive))
  {
    var m := s.up[0];
    ReceiveFlight(s);
    assert [] + InFlight(Next(s, Receive)) == InFlight(Next(s, Receive));
    hide Sound, Calm, InFlight, KeysOk, AllFlightOk, Ordered, UplinkOk, AckStep;
    var t := AckStep(s.server, s.session, m.jt808, 0);
    DeliveredCalm(s.server, s.session, m.jt808, s.device, s.session);
    AckKeepsSound(s.server, s.session, m.jt808, 0);
    CalmKeepsAll(s, t);
    CalmKeepsKeys(s, t);
    FewerUplinks(s, t);
  }

  /** Taking a message off the connection that is not the answer to a command. */
  lemma FewerUplinks(s: System, t: State)
    requires s.up != [] && !IsSealed(s.up[0]) && UplinksOk(s.own, s.up) && KeysOk(s.(server := t))
    ensures UplinksOk(s.own, s.up[1..]) && KeysOk(s.(server := t, up := s.up[1..]))
  {
    hide UplinkOk, KeyBytes;
  }

  lemma ReceiveKeypadKeeps(s: System)
    requires Good(s) && Possible(s, Receive) && s.up[0].Answer? && s.up[0].cause.None?
    ensures Good(Next(s, Receive))
  {
    ReceiveFlight(s);
    assert [] + InFlight(Next(s, Receive)) == InFlight(Next(s, Receive));
    hide Sound, InFlight, KeysOk, AllFlightOk, Ordered, ReplyStep;
    assert UplinkOk(s.own, s.up[0]);
    SpontaneousReplyIsIgnored(s.server, s.device, s.up[0].info);
    FewerUplinks(s, s.server);
  }

  lemma ReceiveKeeps(s: System)
    requires Good(s) && Possible(s, Receive)
    ensures Good(Next(s, Receive))
  {
    hide Good, Next;
    match s.up[0]
    case Delivered(_) => ReceiveDeliveredKeeps(s);
    case Answer(_, None) => ReceiveKeypadKeeps(s);
    case Answer(_, Some(_)) => ReceiveAnswerKeeps(s);
  }

  // ---------- runs ----------

  /** Every event keeps the joint invariant of server, lock and connection, except a command written under the serial of
      one in flight. */
  lemma NextKeepsGood(s: System, e: SystemEvent)
    requires Good(s) && Possible(s, e) && Clear(s, e)
    ensures Good(Next(s, e))
  {
    hide Good, Next, Clear;
    match e
    case Issue(r, seed, written) => IssueKeeps(s, r, seed, written);
    case AtServer(event) => AtServerKeeps(s, event);
    case Deliver => DeliverKeeps(s);
    case Operate => OperateKeeps(s);
    case AtLock(event) => AtLockKeeps(s, event);
    case Receive => ReceiveKeeps(s);
  }

  predicate AllPossible(s: System, run: seq<SystemEvent>)
    decreases run
  {
    run == [] || (Possible(s, run[0]) && AllPossible(Next(s, run[0]), run[1..]))
  }

  function After(s: System, run: seq<SystemEvent>): System
    requires AllPossible(s, run)
    decreases run
  {
    if run == [] then s else After(Next(s, run[0]), run[1..])
  }

  /** A run in which no command is written under the serial of one in flight for the lock. */
  predicate AllClear(s: System, run: seq<SystemEvent>)
    requires AllPossible(s, run)
    decreases run
  {
    run == [] || (Clear(s, run[0]) && AllClear(Next(s, run[0]), run[1..]))
  }

  lemma {:induction false} RunKeepsGood(s: System, run: seq<SystemEvent>)
    requires Good(s) && AllPossible(s, run) && AllClear(s, run)
    ensures Good(After(s, run))
    decreases run
  {
    if run != [] {
      hide Good, Next, Possible, Clear;
      NextKeepsGood(s, run[0]);
      RunKeepsGood(Next(s, run[0]), run[1..]);
    }
  }

  /** A connection just made: nothing on its way, any lock and any stored key, and any state a server can be in, with
      commands pending from an earlier connection or serials that have collided. */
  predicate Start(s: System)
  {
    Sound(s.server) && s.down == [] && s.queue == [] && s.up == [] && !s.remotelySealed
  }

  /** Key agreement: over every run in which no command is written to the device under the serial of one in flight,
      whatever times out, is answered late, fails to be written, is done on the keypad or tampered with, and whatever
      serials collide elsewhere, once some remote seal has succeeded and no such seal's reply is on its way, the stored
      key in the stored format is the key in the lock. */
  lemma KeysAgree(s: System, run: seq<SystemEvent>)
    requires Start(s) && AllPossible(s, run) && AllClear(s, run)
    ensures
      var t := After(s, run);
      t.remotelySealed && (forall m :: m in t.up ==> !IsSealed(m)) ==> StoredAgrees(t)
  {
    StartIsGood(s);
    RunKeepsGood(s, run);
    var t := After(s, run);
    hide Sound, AllFlightOk, KeyBytes;
    if forall m :: m in t.up ==> !IsSealed(m) {
      NoSealOnItsWay(t.up);
    }
  }

  lemma StartIsGood(s: System)
    requires Start(s)
    ensures Good(s)
  {
    hide Sound;
    assert InFlight(s) == [];
  }

  lemma {:induction false} NoSealOnItsWay(up: seq<Uplink>)
    requires forall m :: m in up ==> !IsSealed(m)
    ensures SealOnItsWay(up) == None
  {
    if up != [] {
      assert up == [up[0]] + up[1..];
      NoSealOnItsWay(up[1..]);
    }
  }

  // ---------- the guard is exact ----------

  /** Any reply that echoes the command's serial, whatever else it says, is taken for a reply to it. */
  ghost predicate FindsItself(s: State, d: DeviceId, x: Carried)
  {
    forall r: ReplyInfo :: r.serial == x.serial ==> Correlate(s, d, r).Some? && Correlate(s, d, r).value.id == x.id
  }

  /** So it is for every command in flight for the lock. */
  ghost predicate AllFound(s: System)
  {
    forall x :: x in InFlight(s) && ForLock(s.own, x) ==> FindsItself(s.server, s.device, x)
  }

  lemma GoodIsFound(s: System)
    requires Good(s)
    ensures AllFound(s)
  {
    hide InFlight, FlightOk, Correlate, Sound, KeysOk;
    forall x, r: ReplyInfo | x in InFlight(s) && ForLock(s.own, x) && r.serial == x.serial
      ensures Correlate(s.server, s.device, r).Some? && Correlate(s.server, s.device, r).value.id == x.id
    {
      AnswerFindsIts(s.server, s.device, s.session, r, x);
    }
  }

  /** A command written under the serial of one in flight takes its replies. */
  lemma NewerIsFound(s: State, r: Request, seed: nat, jt808: word, x: Carried)
    requires Sound(s) && x.id < |s.rows| && x.serial == BusinessSerial(s, r.device, seed)
    ensures !FindsItself(BeginStep(s, r, seed, Some(jt808)), r.device, x)
  {
    BeginKeepsSound(s, r, seed, Some(jt808));
    hide UniqueKeys, BusinessSerial;
    var t := BeginStep(s, r, seed, Some(jt808));
    var e := Entry(|s.rows|, r.device, r.session, r.command, jt808, x.serial, r.key, false,
                   IssuedTo(s, r.device, seed).count + 1);
    assert e in t.pending;
    LookupFinds(t.pending, e);
    assert Correlate(t, r.device, ReplyInfo(x.serial, 0, None, false)) == Some(Match(e.id, ByBusinessSerial, Some(e)));
  }

  /** The exact condition, event by event: replies keep finding the commands they answer if and only if no command is
      written under the serial of one in flight. */
  lemma FoundExactly(s: System, e: SystemEvent)
    requires Good(s) && Possible(s, e)
    ensures AllFound(Next(s, e)) <==> Clear(s, e)
  {
    hide Good, Next, FindsItself, Sound;
    if Clear(s, e) {
      NextKeepsGood(s, e);
      GoodIsFound(Next(s, e));
    } else {
      CollisionHides(s, e);
    }
  }

  lemma CollisionHides(s: System, e: SystemEvent)
    requires Good(s) && Possible(s, e) && !Clear(s, e)
    ensures !AllFound(Next(s, e))
  {
    hide Sound, FindsItself, InFlight, CarriedFor, BusinessSerial, BeginStep, AllFlightOk, KeysOk;
    var x :| x in InFlight(s) && ForLock(s.own, x) && x.serial == BusinessSerial(s.server, s.device, e.seed);
    IssueFlight(s, e.request, e.seed, e.written);
    assert x in InFlight(Next(s, e));
    NewerIsFound(s.server, e.request, e.seed, e.written.value, x);
  }

  /** Whether every command in flight for the lock is found by its replies before and after every event of a run. */
  ghost predicate AlwaysFound(s: System, run: seq<SystemEvent>)
    requires AllPossible(s, run)
    decreases run
  {
    AllFound(s) && (run == [] || AlwaysFound(Next(s, run[0]), run[1..]))
  }

  lemma {:induction false} FoundThroughout(s: System, run: seq<SystemEvent>)
    requires Good(s) && AllPossible(s, run)
    ensures AlwaysFound(s, run) <==> AllClear(s, run)
    decreases run
  {
    hide Good, Next, Possible, Clear, AllFound;
    GoodIsFound(s);
    if run != [] {
      FoundExactly(s, run[0]);
      if Clear(s, run[0]) {
        NextKeepsGood(s, run[0]);
        FoundThroughout(Next(s, run[0]), run[1..]);
      } else if AlwaysFound(s, run) {
        FirstFound(Next(s, run[0]), run[1..]);
      }
    }
  }

  lemma FirstFound(s: System, run: seq<SystemEvent>)
    requires AllPossible(s, run) && AlwaysFound(s, run)
    ensures AllFound(s)
  {
  }

  /** The exact condition over runs of a connection: throughout, every reply that echoes the serial of a command in
      flight is taken for a reply to that command, if and only if no command is written under such a serial. */
  lemma RepliesFindTheirCommands(s: System, run: seq<SystemEvent>)
    requires Start(s) && AllPossible(s, run)
    ensures AlwaysFound(s, run) <==> AllClear(s, run)
  {
    hide Start, Good, AlwaysFound, AllClear, AllPossible;
    StartIsGood(s);
    FoundThroughout(s, run);
  }

  // ---------- the serial window ----------

  predicate IssuedAs(issued: map<DeviceId, Issued>, d: DeviceId, x: Carried)
  {
    d in issued && 1 <= x.issue <= issued[d].count && x.serial == NthSerial(issued[d].seed, x.issue)
  }

  /** Serials are those of the counters, and so are the serials in flight. */
  predicate Counted(s: System)
  {
    && SerialsOk(s.server.serials, s.server.issued)
    && forall x :: x in InFlight(s) ==> IssuedAs(s.server.issued, s.device, x)
  }

  /** The next serial is that of a command in flight exactly when one was issued a multiple of 65535 commands ago. */
  lemma ClearExactly(s: System, seed: nat)
    requires Counted(s)
    ensures SerialClear(s, seed) <==>
            forall x :: x in InFlight(s) && ForLock(s.own, x) ==>
              (s.server.issued[s.device].count + 1 - x.issue) % SERIALS != 0
  {
    hide InFlight, NthSerial, BusinessSerial;
    forall x | x in InFlight(s)
      ensures x.serial == BusinessSerial(s.server, s.device, seed) <==>
          (s.server.issued[s.device].count + 1 - x.issue) % SERIALS == 0
    {
      SerialMoves(s.server, s.device, seed, x);
    }
  }

  lemma SerialMoves(s: State, d: DeviceId, seed: nat, x: Carried)
    requires SerialsOk(s.serials, s.issued) && IssuedAs(s.issued, d, x)
    ensures x.serial == BusinessSerial(s, d, seed) <==> (s.issued[d].count + 1 - x.issue) % SERIALS == 0
  {
    var n := s.issued[d];
    SerialSequence(n.seed, n.count);
    SerialsDistinct(n.seed, x.issue, n.count + 1);
  }

  /** Counters move only when a command is begun, and then by one. */
  predicate CountersMove(before: map<DeviceId, Issued>, after: map<DeviceId, Issued>)
  {
    forall d :: d in before ==> d in after && after[d].seed == before[d].seed && after[d].count >= before[d].count
  }

  lemma StepCounters(s: State, e: Event)
    requires SerialsOk(s.serials, s.issued) && Enabled(s, e) && !e.Restart?
    ensures SerialsOk(Step(s, e).serials, Step(s, e).issued) && CountersMove(s.issued, Step(s, e).issued)
  {
    hide SerialsOk, Correlate, ReplyOutcome, Without, Put, MarkAcked, FindSent, BusinessSerial, StillOpen;
    if e.Begin? {
      BeginSerials(s, e.request, e.seed, e.written);
    }
  }

  /** What an event adds to the commands in flight: the command it writes, if any. */
  lemma FlightGrows(s: System, e: SystemEvent)
    requires Possible(s, e)
    ensures forall x :: x in InFlight(Next(s, e)) && x !in InFlight(s) ==>
              e.Issue? && e.written.Some? && x == CarriedFor(s.server, e.request, e.seed, e.written.value)
  {
    hide InFlight, CarriedFor, BeginStep;
    match e
    case Issue(r, seed, written) => IssueFlight(s, r, seed, written);
    case AtServer(_) => SameFlight(s, Next(s, e));
    case Deliver => DeliverFlight(s);
    case Operate => OperateShrinks(s);
    case AtLock(event) => KeypadSame(s, event);
    case Receive => ReceiveFlight(s);
  }

  lemma SameFlight(s: System, t: System)
    requires t.up == s.up && t.queue == s.queue && t.down == s.down
    ensures InFlight(t) == InFlight(s)
  {
  }

  lemma KeypadSame(s: System, e: L.LockEvent)
    requires Possible(s, AtLock(e))
    ensures InFlight(Next(s, AtLock(e))) == InFlight(s)
  {
    KeypadFlight(s, e);
  }

  lemma OperateShrinks(s: System)
    requires s.queue != []
    ensures forall x :: x in InFlight(Next(s, Operate)) ==> x in InFlight(s)
  {
    OperateFlight(s);
    assert s.queue == [s.queue[0]] + s.queue[1..];
    hide Next, L.Code, Causes;
  }

  lemma NextKeepsCounted(s: System, e: SystemEvent)
    requires Counted(s) && Possible(s, e)
    ensures Counted(Next(s, e))
  {
    hide InFlight, SerialsOk, BeginStep, Step, CarriedFor, IssuedAs;
    var t := Next(s, e);
    FlightGrows(s, e);
    ServerCounters(s, e);
    forall x | x in InFlight(t) ensures IssuedAs(t.server.issued, s.device, x) {
      if x in InFlight(s) {
        IssuedStays(s.server.issued, t.server.issued, s.device, x);
      } else {
        NewIsIssued(s, e.request, e.seed, e.written);
      }
    }
  }

  lemma ServerCounters(s: System, e: SystemEvent)
    requires Counted(s) && Possible(s, e)
    ensures SerialsOk(Next(s, e).server.serials, Next(s, e).server.issued)
    ensures CountersMove(s.server.issued, Next(s, e).server.issued)
  {
    hide SerialsOk, InFlight, CarriedFor, BeginStep, AckStep, ReplyStep, IssuedAs;
    match e
    case Issue(r, seed, written) => StepCounters(s.server, Begin(r, seed, written));
    case AtServer(event) => StepCounters(s.server, event);
    case Receive =>
      match s.up[0] {
        case Delivered(jt808) => StepCounters(s.server, Ack(s.session, jt808, 0));
        case Answer(info, _) => StepCounters(s.server, Event.Reply(s.device, info));
      }
    case _ =>
  }

  lemma IssuedStays(before: map<DeviceId, Issued>, after: map<DeviceId, Issued>, d: DeviceId, x: Carried)
    requires IssuedAs(before, d, x) && CountersMove(before, after)
    ensures IssuedAs(after, d, x)
  {
    hide NthSerial;
  }

  lemma NewIsIssued(s: System, r: Request, seed: nat, written: Option<word>)
    requires Possible(s, Issue(r, seed, written)) && written.Some? && SerialsOk(s.server.serials, s.server.issued)
    ensures
      var x := CarriedFor(s.server, r, seed, written.value);
      IssuedAs(BeginStep(s.server, r, seed, written).issued, s.device, x)
  {
    var n := IssuedTo(s.server, s.device, seed);
    SerialSequence(n.seed, n.count + 1);
    if s.device in s.server.issued {
      SerialSequence(n.seed, n.count);
    }
    hide NthSerial, NextSerial, KeyBytes, Put;
  }

  /** Fewer than 65535 commands, the next one included, are issued to the device while one is in flight for its lock. */
  predicate Window(s: System)
  {
    forall x :: x in InFlight(s) && ForLock(s.own, x) && s.device in s.server.issued ==>
      s.server.issued[s.device].count + 1 < x.issue + SERIALS
  }

  predicate AllInWindow(s: System, run: seq<SystemEvent>)
    requires AllPossible(s, run)
    decreases run
  {
    run == [] ||
    ((run[0].Issue? && run[0].written.Some? ==> Window(s)) && AllInWindow(Next(s, run[0]), run[1..]))
  }

  lemma WindowIsClear(s: System, seed: nat)
    requires Counted(s) && Window(s)
    ensures SerialClear(s, seed)
  {
    hide InFlight, NthSerial, SerialClear;
    ClearExactly(s, seed);
  }

  lemma {:induction false} CountedIsClear(s: System, run: seq<SystemEvent>)
    requires Counted(s) && AllPossible(s, run) && AllInWindow(s, run)
    ensures AllClear(s, run)
    decreases run
  {
    if run != [] {
      hide Counted, Next, Possible, Window, SerialClear;
      if run[0].Issue? {
        if Window(s) {
          WindowIsClear(s, run[0].seed);
        }
      }
      NextKeepsCounted(s, run[0]);
      CountedIsClear(Next(s, run[0]), run[1..]);
    }
  }

  /** When fewer than 65535 commands are issued to the device while one of them is in flight, no command is written
      under the serial of one in flight. */
  lemma InWindowIsClear(s: System, run: seq<SystemEvent>)
    requires Start(s) && SerialsOk(s.server.serials, s.server.issued) && AllPossible(s, run) && AllInWindow(s, run)
    ensures AllClear(s, run)
  {
    hide AllPossible, AllInWindow, AllClear, SerialsOk, Sound;
    assert InFlight(s) == [];
    CountedIsClear(s, run);
  }
}
