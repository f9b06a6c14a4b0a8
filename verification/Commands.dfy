/** The command lifecycle of server/src/services/command-service.js on values. Each handler is one atomic step;
    execute is two, cut where it waits for send. Command ids are row numbers. */
module Commands {
  import opened Bytes
  import opened Elock

  type DeviceId = nat
  type SessionId = nat
  type CommandId = nat

  datatype Status = Pending | Sent | Acknowledged | Timeout | Completed | Rejected | SendFailed

  datatype Method = ByBusinessSerial | LateBusinessSerial | OldestPending

  /** A row of the command table; serial 0 stands for a command that never got one. */
  datatype Row = Row(device: DeviceId, command: Command, lockId: string, key: string, keyFormat: KeyFormat, serial: nat,
                     status: Status, outcome: Option<Outcome>, resultCode: Option<byte>, via: Option<Method>)

  datatype PendingKey = PendingKey(device: DeviceId, serial: nat)

  /** An entry of the pending map. `issue` numbers the commands of a device in this process; only proofs read it. */
  datatype Entry = Entry(id: CommandId, device: DeviceId, session: SessionId, command: Command, jt808Serial: word,
                         serial: nat, key: string, acked: bool, issue: nat)
  {
    function KeyOf(): PendingKey {
      PendingKey(device, serial)
    }
  }

  datatype StoredKey = StoredKey(key: string, format: KeyFormat)

  /** The serial before a device's first command and how many it was given since; only proofs read it. */
  datatype Issued = Issued(seed: nat, count: nat)

  /** timers: armed timers and the pending key each will test; sending: commands whose execute waits for send. */
  datatype State = State(rows: seq<Row>, pending: seq<Entry>, timers: map<CommandId, PendingKey>,
                         sending: set<CommandId>, serials: map<DeviceId, nat>,
                         issued: map<DeviceId, Issued>, keys: map<DeviceId, StoredKey>)

  datatype Request = Request(device: DeviceId, session: SessionId, command: Command, lockId: string, key: string,
                             keyFormat: KeyFormat)

  /** The parts of a decoded operation reply that correlation reads. */
  datatype ReplyInfo = ReplyInfo(serial: nat, code: byte, lockId: Option<string>, fromPlatform: bool)

  datatype Event =
    | Begin(request: Request, seed: nat, written: Option<word>)
    | Refuse(request: Request)
    | End(id: CommandId)
    | Ack(session: SessionId, replySerial: word, result: byte)
    | TimerFires(timer: CommandId)
    | Reply(device: DeviceId, reply: ReplyInfo)
    | Restart

  const SERIALS: nat := 0xffff

  // ---------- the pending map, in insertion order ----------

  function Lookup(pending: seq<Entry>, k: PendingKey): (r: Option<Entry>)
    ensures r.Some? ==> r.value in pending && r.value.KeyOf() == k
    ensures r.None? ==> forall e :: e in pending ==> e.KeyOf() != k
  {
    if pending == [] then None else if pending[0].KeyOf() == k then Some(pending[0]) else Lookup(pending[1..], k)
  }

  function Without(pending: seq<Entry>, k: PendingKey): (r: seq<Entry>)
    ensures forall e :: e in r <==> e in pending && e.KeyOf() != k
  {
    if pending == [] then []
    else
      assert pending == [pending[0]] + pending[1..];
      (if pending[0].KeyOf() == k then [] else [pending[0]]) + Without(pending[1..], k)
  }

  /** Map.set: a key that is present keeps its place and gets the new entry. */
  function Put(pending: seq<Entry>, e: Entry): (r: seq<Entry>)
    ensures forall x :: x in r <==> x == e || (x in pending && x.KeyOf() != e.KeyOf())
  {
    if pending == [] then [e]
    else
      assert pending == [pending[0]] + pending[1..];
      if pending[0].KeyOf() == e.KeyOf() then [e] + Without(pending[1..], e.KeyOf())
        else [pending[0]] + Put(pending[1..], e)
  }

  function SetAcked(e: Entry, k: PendingKey): Entry
  {
    if e.KeyOf() == k then e.(acked := true) else e
  }

  function MarkAcked(pending: seq<Entry>, k: PendingKey): (r: seq<Entry>)
    ensures |r| == |pending|
    ensures forall i :: 0 <= i < |r| ==> r[i] == SetAcked(pending[i], k)
  {
    seq(|pending|, i requires 0 <= i < |pending| => SetAcked(pending[i], k))
  }

  /** The first entry of a session that was sent under a JT/T 808 serial. */
  function FindSent(pending: seq<Entry>, session: SessionId, serial: word): (r: Option<Entry>)
    ensures r.Some? ==> r.value in pending && r.value.session == session && r.value.jt808Serial == serial
    ensures r.None? ==> forall e :: e in pending ==> !(e.session == session && e.jt808Serial == serial)
  {
    if pending == [] then None
    else if pending[0].session == session && pending[0].jt808Serial == serial then Some(pending[0])
    else FindSent(pending[1..], session, serial)
  }

  predicate IsFor(e: Entry, device: DeviceId, command: Command)
  {
    e.device == device && e.command == command
  }

  /** Head of the stable sort by JT/T 808 serial: the first entry with the least serial. */
  function Oldest(pending: seq<Entry>, device: DeviceId, command: Command): (r: Option<Entry>)
    ensures r.Some? ==> r.value in pending && IsFor(r.value, device, command)
    ensures r.Some? ==> forall e :: e in pending && IsFor(e, device, command) ==> r.value.jt808Serial <= e.jt808Serial
    ensures r.None? ==> forall e :: e in pending ==> !IsFor(e, device, command)
  {
    if pending == [] then None
    else
      assert pending == [pending[0]] + pending[1..];
      var rest := Oldest(pending[1..], device, command);
      if IsFor(pending[0], device, command) && (rest.None? || pending[0].jt808Serial <= rest.value.jt808Serial)
      then Some(pending[0]) else rest
  }

  // ---------- the command table ----------

  predicate Open(s: Status)
  {
    s == Pending || s == Sent || s == Acknowledged
  }

  /** findCommandByBusinessSerial with statuses timeout and open: the newest such row. */
  function FindLate(rows: seq<Row>, device: DeviceId, serial: nat): (r: Option<CommandId>)
    ensures r.Some? ==> r.value < |rows| && Late(rows[r.value], device, serial)
    ensures r.Some? ==> forall i :: r.value < i < |rows| ==> !Late(rows[i], device, serial)
    ensures r.None? ==> forall i :: 0 <= i < |rows| ==> !Late(rows[i], device, serial)
  {
    if rows == [] then None
    else
      var last := |rows| - 1;
      if Late(rows[last], device, serial) then Some(last) else FindLate(rows[..last], device, serial)
  }

  predicate Late(r: Row, device: DeviceId, serial: nat)
  {
    r.device == device && r.serial == serial && (r.status == Timeout || Open(r.status))
  }

  // ---------- steps ----------

  function NextSerial(last: nat): (s: nat)
    ensures 1 <= s <= SERIALS
  {
    last % SERIALS + 1
  }

  function IssuedTo(s: State, d: DeviceId, seed: nat): Issued
  {
    if d in s.issued then s.issued[d] else Issued(seed, 0)
  }

  function BusinessSerial(s: State, d: DeviceId, seed: nat): nat
  {
    NextSerial(if d in s.serials then s.serials[d] else seed)
  }

  function NewRow(r: Request, serial: nat, status: Status): Row
  {
    Row(r.device, r.command, r.lockId, r.key, r.keyFormat, serial, status,
        if status == SendFailed then Some(Failure) else None, None, None)
  }

  /** execute up to its wait for send; `written` is the JT/T 808 serial, or None when the socket write fails. */
  function BeginStep(s: State, r: Request, seed: nat, written: Option<word>): State
  {
    var serial := BusinessSerial(s, r.device, seed);
    var id, before := |s.rows|, IssuedTo(s, r.device, seed);
    var t := s.(serials := s.serials[r.device := serial],
      issued := s.issued[r.device := before.(count := before.count + 1)]);
    match written
    case None =>
      t.(rows := s.rows + [NewRow(r, serial, SendFailed)], pending := Without(s.pending, PendingKey(r.device, serial)))
    case Some(jt808) =>
      var e := Entry(id, r.device, r.session, r.command, jt808, serial, r.key, false, before.count + 1);
      t.(rows := s.rows + [NewRow(r, serial, Pending)], pending := Put(s.pending, e),
         timers := s.timers[id := e.KeyOf()], sending := s.sending + {id})
  }

  /** execute for a device that is offline or not authenticated. */
  function RefuseStep(s: State, r: Request): State
  {
    s.(rows := s.rows + [NewRow(r, 0, SendFailed)])
  }

  predicate StillOpen(pending: seq<Entry>, id: CommandId)
  {
    exists i :: 0 <= i < |pending| && pending[i].id == id && !pending[i].acked
  }

  /** The tail of execute. */
  function EndStep(s: State, id: CommandId): State
  {
    var t := s.(sending := s.sending - {id});
    if id < |s.rows| && StillOpen(s.pending, id) then t.(rows := s.rows[id := s.rows[id].(status := Sent)]) else t
  }

  /** finish: the timer is cancelled and the pending key deleted. */
  function Finish(s: State, e: Entry): State
  {
    s.(timers := s.timers - {e.id}, pending := Without(s.pending, e.KeyOf()))
  }

  function AckStep(s: State, session: SessionId, serial: word, result: byte): State
  {
    match FindSent(s.pending, session, serial)
    case None => s
    case Some(e) =>
      if e.id >= |s.rows| then s
      else if result == 0 then
        s.(rows := s.rows[e.id := s.rows[e.id].(status := Acknowledged)], pending := MarkAcked(s.pending, e.KeyOf()))
      else
        Finish(s, e).(rows := s.rows[e.id := s.rows[e.id].(status := Rejected, outcome := Some(Failure))])
  }

  function TimeoutStep(s: State, id: CommandId): State
    requires id in s.timers
  {
    var k := s.timers[id];
    var t := s.(timers := s.timers - {id});
    if Lookup(s.pending, k).None? || id >= |s.rows| then t
    else t.(rows := s.rows[id := s.rows[id].(status := Timeout, outcome := Some(TimedOut))],
      pending := Without(s.pending, k))
  }

  datatype Match = Match(id: CommandId, via: Method, entry: Option<Entry>)

  /** Which command a reply is for: business serial, then a late business serial, then the oldest open command of the
      reply's type if the reply says it answers the platform. */
  function Correlate(s: State, device: DeviceId, r: ReplyInfo): Option<Match>
  {
    var entry := Lookup(s.pending, PendingKey(device, r.serial));
    if entry.Some? then Some(Match(entry.value.id, ByBusinessSerial, entry))
    else
      var late := FindLate(s.rows, device, r.serial);
      if late.Some? && r.serial != 0 then Some(Match(late.value, LateBusinessSerial, None))
      else if ResultOf(r.code).Some? && r.fromPlatform then
        var oldest := Oldest(s.pending, device, ResultOf(r.code).value.command);
        if oldest.Some? then Some(Match(oldest.value.id, OldestPending, oldest)) else None
      else None
  }

  /** The reply names another LockID than the command. */
  predicate WrongLock(row: Row, r: ReplyInfo)
  {
    r.lockId.Some? && r.lockId.value != "" && row.lockId != "" && r.lockId.value != row.lockId
  }

  /** The result code belongs to another command type. */
  predicate WrongCommand(row: Row, r: ReplyInfo)
  {
    ResultOf(r.code).Some? && ResultOf(r.code).value.command != row.command
  }

  function ReplyOutcome(row: Row, r: ReplyInfo): Outcome
  {
    if WrongLock(row, r) || WrongCommand(row, r) then Unknown
    else match ResultOf(r.code) case None => Unknown case Some(def) => def.outcome
  }

  function Answered(row: Row, outcome: Outcome, code: byte, via: Method): Row
  {
    row.(status := Completed, outcome := Some(outcome), resultCode := Some(code), via := Some(via))
  }

  /** The key a successful seal set: the pending entry's, or after its timeout the row's. */
  function SealKey(m: Match, row: Row): string
  {
    if m.entry.Some? then m.entry.value.key else row.key
  }

  function ReplyStep(s: State, device: DeviceId, r: ReplyInfo): State
  {
    match Correlate(s, device, r)
    case None => s
    case Some(m) =>
      if m.id >= |s.rows| then s
      else
        var row := s.rows[m.id];
        var outcome := ReplyOutcome(row, r);
        var t := s.(rows := s.rows[m.id := Answered(row, outcome, r.code, m.via)]);
        var u := if outcome == Success && row.command == Seal
                 then t.(keys := t.keys[device := StoredKey(SealKey(m, row), row.keyFormat)]) else t;
        if m.entry.Some? then Finish(u, m.entry.value) else u
  }

  function FailOpen(r: Row): Row
  {
    if Open(r.status) then r.(status := Timeout, outcome := if r.outcome.None? then Some(TimedOut) else r.outcome)
      else r
  }

  function FailOpenRows(rows: seq<Row>): (out: seq<Row>)
    ensures |out| == |rows|
    ensures forall i :: 0 <= i < |rows| ==> out[i] == FailOpen(rows[i])
  {
    seq(|rows|, i requires 0 <= i < |rows| => FailOpen(rows[i]))
  }

  /** A new process: recoverAfterRestart on the table, everything in memory gone. */
  function RestartStep(s: State): State
  {
    s.(rows := FailOpenRows(s.rows), pending := [], timers := map[], sending := {}, serials := map[], issued := map[])
  }

  predicate PlatformCommand(c: Command)
  {
    c == Seal || c == Unseal || c == ClearAlarm
  }

  /** What can happen next; a timer fires only while it is armed, execute resumes once. */
  predicate Enabled(s: State, e: Event)
  {
    match e
    case Begin(r, _, _) => PlatformCommand(r.command) && IsLockId(r.lockId) && KeyBytes(r.key, r.keyFormat).Ok?
    case Refuse(r) => PlatformCommand(r.command) && KeyBytes(r.key, r.keyFormat).Ok?
    case End(id) => id in s.sending
    case TimerFires(id) => id in s.timers
    case _ => true
  }

  function Step(s: State, e: Event): State
    requires Enabled(s, e)
  {
    match e
    case Begin(r, seed, written) => BeginStep(s, r, seed, written)
    case Refuse(r) => RefuseStep(s, r)
    case End(id) => EndStep(s, id)
    case Ack(session, serial, result) => AckStep(s, session, serial, result)
    case TimerFires(id) => TimeoutStep(s, id)
    case Reply(device, r) => ReplyStep(s, device, r)
    case Restart => RestartStep(s)
  }
}
