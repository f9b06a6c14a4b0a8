/** The simulated lock of simulator/device.js: a state machine over remote operations, its keypad, tampering and its
    battery. */
module SimLock {
  import opened Bytes
  import opened Elock

  /** `Other` is any other initial state the options give, such as standby. */
  datatype LockState = Sealed | Unsealed | Alarm | Other(name: string)

  datatype Lock = Lock(state: LockState, beforeAlarm: Option<LockState>, key: Option<seq<byte>>, voltage: byte,
                       alarmBits: nat)

  /** The parts of a decoded lock operation that the lock acts on. */
  datatype Operation = Operation(cmd: byte, lockId: Option<string>, key: seq<byte>)

  datatype LockEvent = Remote(op: Operation) | KeypadUnseal | KeypadSeal | Tamper | Battery(low: bool)

  const VOLTAGE_CRITICAL: byte := 0x30
  const VOLTAGE_GOOD: byte := 0x36

  function Voltage(low: bool): byte
  {
    if low then VOLTAGE_CRITICAL else VOLTAGE_GOOD
  }

  // ---------- the specification of each operation ----------

  predicate WrongKey(lock: Lock, key: seq<byte>)
  {
    lock.key.Some? && lock.key.value != key
  }

  /** The result code of a remote operation; None when the lock stays silent. */
  function Code(lock: Lock, own: string, op: Operation): Option<byte>
  {
    if op.lockId != Some(own) then None
    else match CommandOf(op.cmd)
      case Some(Seal) =>
        Some(if lock.state == Alarm then 0x86 else if lock.voltage <= VOLTAGE_CRITICAL then 0x83
             else if lock.state == Sealed then 0x81 else 0x80)
      case Some(Unseal) =>
        Some(if lock.state == Alarm then 0x98 else if lock.state != Sealed then 0x97
             else if WrongKey(lock, op.key) then 0x93 else 0x90)
      case Some(ClearAlarm) =>
        Some(if lock.state != Alarm then 0x72
             else if lock.beforeAlarm == Some(Sealed) && WrongKey(lock, op.key) then 0x73 else 0x70)
      case _ => Some(0x00)
  }

  /** Only a success code changes the lock. */
  function After(lock: Lock, op: Operation, code: Option<byte>): Lock
  {
    if code == Some(0x80) then lock.(state := Sealed, key := Some(op.key))
    else if code == Some(0x90) then lock.(state := Unsealed)
    else if code == Some(0x70)
      then lock.(state := if lock.beforeAlarm == Some(Sealed) then Sealed else Unsealed, alarmBits := 0)
    else lock
  }

  function Tampered(lock: Lock): Lock
  {
    lock.(beforeAlarm := if lock.state != Alarm then Some(lock.state) else lock.beforeAlarm, state := Alarm,
          alarmBits := if lock.alarmBits % 2 == 0 then lock.alarmBits + 1 else lock.alarmBits)
  }

  /** The keypad opens only a sealed lock, and seals from every state, an alarm included; it never touches the key. */
  function KeypadLock(lock: Lock, unseal: bool): Lock
  {
    if unseal then (if lock.state == Sealed then lock.(state := Unsealed) else lock) else lock.(state := Sealed)
  }

  function KeypadCode(lock: Lock, unseal: bool): byte
  {
    if unseal then (if lock.state == Sealed then 0x90 else 0x97) else (if lock.state == Sealed then 0x81 else 0x80)
  }

  function Next(lock: Lock, own: string, e: LockEvent): Lock
  {
    match e
    case Remote(op) => After(lock, op, Code(lock, own, op))
    case KeypadUnseal => KeypadLock(lock, true)
    case KeypadSeal => KeypadLock(lock, false)
    case Tamper => Tampered(lock)
    case Battery(low) => lock.(voltage := Voltage(low))
  }

  function Run(lock: Lock, own: string, run: seq<LockEvent>): Lock
    decreases run
  {
    if run == [] then lock else Run(Next(lock, own, run[0]), own, run[1..])
  }

  // ---------- the class ----------

  class SimulatedLock {
    const lockId: string
    var state: LockState
    var beforeAlarm: Option<LockState>
    var key: Option<seq<byte>>
    var voltage: byte
    var alarmBits: nat

    constructor (lockId: string, initialState: LockState, initialKey: Option<seq<byte>>, lowBattery: bool, tamper: bool)
      ensures this.lockId == lockId
      ensures View() == var lock := Lock(initialState, None, initialKey, Voltage(lowBattery), 0);
                        if tamper then Tampered(lock) else lock
    {
      this.lockId := lockId;
      state, beforeAlarm, key, alarmBits := initialState, None, initialKey, 0;
      voltage := Voltage(lowBattery);
      new;
      if tamper {
        RaiseTamper();
      }
    }

    function View(): Lock
      reads this
    {
      Lock(state, beforeAlarm, key, voltage, alarmBits)
    }

    /** raiseTamper; the reports it sends are not part of the lock. */
    method RaiseTamper()
      modifies this
      ensures View() == Next(old(View()), lockId, Tamper)
    {
      if state != Alarm {
        beforeAlarm := Some(state);
      }
      state := Alarm;
      if alarmBits % 2 == 0 {
        alarmBits := alarmBits + 1;
      }
    }

    method KeypadOperation(unseal: bool) returns (resultCode: byte, lockStatus: byte)
      modifies this
      ensures View() == Next(old(View()), lockId, if unseal then KeypadUnseal else KeypadSeal)
      ensures resultCode == KeypadCode(old(View()), unseal) && lockStatus == if unseal then 0xb0 else 0x50
    {
      if unseal {
        resultCode := if state == Sealed then 0x90 else 0x97;
        if resultCode == 0x90 {
          state := Unsealed;
        }
        lockStatus := 0xb0;
      } else {
        resultCode := if state == Sealed then 0x81 else 0x80;
        state := Sealed;
        lockStatus := 0x50;
      }
    }

    method SetLowBattery(on: bool)
      modifies this
      ensures View() == Next(old(View()), lockId, Battery(on))
    {
      voltage := Voltage(on);
    }

    method ApplyLockOperation(op: Operation) returns (code: Option<byte>)
      modifies this
      ensures code == Code(old(View()), lockId, op)
      ensures View() == Next(old(View()), lockId, Remote(op))
    {
      if op.lockId != Some(lockId) {
        return None;
      }
      if op.cmd == CommandByte(Seal) {
        if state == Alarm { return Some(0x86); }
        if voltage <= VOLTAGE_CRITICAL { return Some(0x83); }
        if state == Sealed { return Some(0x81); }
        state := Sealed;
        key := Some(op.key);
        return Some(0x80);
      } else if op.cmd == CommandByte(Unseal) {
        if state == Alarm { return Some(0x98); }
        if state != Sealed { return Some(0x97); }
        if key.Some? && key.value != op.key { return Some(0x93); }
        state := Unsealed;
        return Some(0x90);
      } else if op.cmd == CommandByte(ClearAlarm) {
        if state != Alarm { return Some(0x72); }
        if beforeAlarm == Some(Sealed) && key.Some? && key.value != op.key { return Some(0x73); }
        state := if beforeAlarm == Some(Sealed) then Sealed else Unsealed;
        alarmBits := 0;
        return Some(0x70);
      }
      return Some(0x00);
    }
  }

  // ---------- codes ----------

  /** Every answer to a seal, unseal or clear-alarm belongs to that command in the result-code table, and it is the
      success code exactly when the operation changed the lock; otherwise nothing at all changed. */
  lemma CodesTellTheTruth(lock: Lock, own: string, op: Operation, command: Command)
    requires CommandOf(op.cmd) == Some(command) && command in {Seal, Unseal, ClearAlarm} && op.lockId == Some(own)
    ensures
      var code, after := Code(lock, own, op), Next(lock, own, Remote(op));
      && code.Some? && ResultOf(code.value).Some? && ResultOf(code.value).value.command == command
      && (code.value == SuccessCode(command) <==> after.state != lock.state)
      && (code.value != SuccessCode(command) ==> after == lock)
  {
  }

  /** A run without the operations for other LockIDs. */
  function WithoutOthers(own: string, run: seq<LockEvent>): seq<LockEvent>
  {
    if run == [] then []
    else (if run[0].Remote? && run[0].op.lockId != Some(own) then [] else [run[0]]) + WithoutOthers(own, run[1..])
  }

  /** The codes the lock sends over a run, in order. */
  function Codes(lock: Lock, own: string, run: seq<LockEvent>): seq<byte>
    decreases run
  {
    if run == [] then []
    else
      (match run[0]
       case Remote(op) => if Code(lock, own, op).Some? then [Code(lock, own, op).value] else []
       case KeypadUnseal => [KeypadCode(lock, true)]
       case KeypadSeal => [KeypadCode(lock, false)]
       case _ => [])
      + Codes(Next(lock, own, run[0]), own, run[1..])
  }

  /** Operations for other LockIDs leave no trace: a run with them and the same run without them end in the same lock,
      and the lock has sent the same codes. */
  lemma {:induction false} SilentForOthers(lock: Lock, own: string, run: seq<LockEvent>)
    ensures Run(lock, own, WithoutOthers(own, run)) == Run(lock, own, run)
    ensures Codes(lock, own, WithoutOthers(own, run)) == Codes(lock, own, run)
    decreases run
  {
    if run != [] {
      var rest := WithoutOthers(own, run[1..]);
      SilentForOthers(Next(lock, own, run[0]), own, run[1..]);
      if run[0].Remote? && run[0].op.lockId != Some(own) {
        assert [] + rest == rest;
      } else {
        assert ([run[0]] + rest)[1..] == rest;
      }
    }
  }

  // ---------- the key ----------

  predicate IsRemoteSeal(lock: Lock, own: string, e: LockEvent)
  {
    e.Remote? && Code(lock, own, e.op) == Some(0x80)
  }

  /** The key of the last remote seal of a run that succeeded; `key` if none did. */
  function LastSealKey(lock: Lock, own: string, run: seq<LockEvent>, key: Option<seq<byte>>): Option<seq<byte>>
    decreases run
  {
    if run == [] then key
    else LastSealKey(Next(lock, own, run[0]), own, run[1..],
                     if IsRemoteSeal(lock, own, run[0]) then Some(run[0].op.key) else key)
  }

  /** In every run the lock's key is that of the last successful remote seal, or the initial one. */
  lemma {:induction false} KeyIsLastSeal(lock: Lock, own: string, run: seq<LockEvent>)
    ensures Run(lock, own, run).key == LastSealKey(lock, own, run, lock.key)
    decreases run
  {
    if run != [] {
      KeyIsLastSeal(Next(lock, own, run[0]), own, run[1..]);
    }
  }

  /** A remote unseal succeeds after a run exactly when the lock is sealed, the operation is for it, and its key is that
      of the last successful remote seal or the initial one, if there is any. */
  lemma UnsealNeedsTheKey(lock: Lock, own: string, run: seq<LockEvent>, op: Operation)
    requires CommandOf(op.cmd) == Some(Unseal)
    ensures
      var now, key := Run(lock, own, run), LastSealKey(lock, own, run, lock.key);
      Code(now, own, op) == Some(0x90) <==>
        op.lockId == Some(own) && now.state == Sealed && (key.Some? ==> key.value == op.key)
  {
    KeyIsLastSeal(lock, own, run);
  }

  // ---------- alarms ----------

  predicate Clears(lock: Lock, own: string, e: LockEvent)
  {
    e.Remote? && Code(lock, own, e.op) == Some(0x70)
  }

  /** Runs without a successful clear and without sealing on the keypad. */
  predicate StaysInAlarm(lock: Lock, own: string, run: seq<LockEvent>)
    decreases run
  {
    run == [] || (run[0] != KeypadSeal && !Clears(lock, own, run[0])
      && StaysInAlarm(Next(lock, own, run[0]), own, run[1..]))
  }

  /** An alarm remembers the state and the key it interrupted through any number of tampers, refused operations,
      keypad unseals and battery changes. */
  lemma {:induction false} AlarmRemembers(lock: Lock, own: string, run: seq<LockEvent>)
    requires lock.state == Alarm && StaysInAlarm(lock, own, run)
    ensures
      var now := Run(lock, own, run);
      now.state == Alarm && now.beforeAlarm == lock.beforeAlarm && now.key == lock.key
    decreases run
  {
    if run != [] {
      AlarmRemembers(Next(lock, own, run[0]), own, run[1..]);
    }
  }

  /** A tamper, any such run, then a clear that succeeds: a sealed or unsealed lock is back as it was before. */
  lemma ClearRestores(lock: Lock, own: string, run: seq<LockEvent>, e: LockEvent)
    requires lock.state != Alarm
    requires StaysInAlarm(Tampered(lock), own, run) && Clears(Run(Tampered(lock), own, run), own, e)
    ensures
      var now := Next(Run(Tampered(lock), own, run), own, e);
      now.state == (if lock.state == Sealed then Sealed else Unsealed) && now.key == lock.key && now.alarmBits == 0
  {
    AlarmRemembers(Tampered(lock), own, run);
  }

  /** A clear for this lock fails in alarm exactly when it interrupted a sealed lock and the key is wrong. */
  lemma ClearNeedsTheKey(lock: Lock, own: string, run: seq<LockEvent>, op: Operation)
    requires lock.state != Alarm && StaysInAlarm(Tampered(lock), own, run)
    requires CommandOf(op.cmd) == Some(ClearAlarm) && op.lockId == Some(own)
    ensures Clears(Run(Tampered(lock), own, run), own, Remote(op))
        <==> !(lock.state == Sealed && WrongKey(lock, op.key))
  {
    AlarmRemembers(Tampered(lock), own, run);
  }

  /** Sealing on the keypad ends an alarm without a clear: the alarm bit stays and a clear is then refused. */
  lemma KeypadSealEndsAlarm(lock: Lock, own: string, op: Operation)
    requires CommandOf(op.cmd) == Some(ClearAlarm) && op.lockId == Some(own)
    ensures
      var now := Next(Tampered(lock), own, KeypadSeal);
      now.state == Sealed && now.alarmBits % 2 == 1 && Code(now, own, op) == Some(0x72)
  {
  }
}
