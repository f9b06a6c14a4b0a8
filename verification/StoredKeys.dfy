/** What the agreement of keys is for: an unseal with the key the server has stored. */
module StoredKeys {
  import opened Bytes
  import opened Elock
  import opened Commands
  import opened CommandSafety
  import opened CommandLaws
  import opened CommandRuns
  import opened KeyAgreement
  import L = SimLock

  // ---------- running on ----------

  lemma Prepend(s: System, e: SystemEvent, rest: seq<SystemEvent>)
    requires Possible(s, e) && AllPossible(Next(s, e), rest)
    ensures AllPossible(s, [e] + rest) && After(s, [e] + rest) == After(Next(s, e), rest)
    ensures Clear(s, e) && AllClear(Next(s, e), rest) ==> AllClear(s, [e] + rest)
    ensures Operations([e] + rest) == (if e.Operate? then 1 else 0) + Operations(rest)
  {
    hide Possible, Next, Clear;
    assert ([e] + rest)[0] == e && ([e] + rest)[1..] == rest;
  }

  lemma JustOne(s: System, e: SystemEvent)
    requires Possible(s, e)
    ensures AllPossible(s, [e]) && After(s, [e]) == Next(s, e) && Operations([e]) == if e.Operate? then 1 else 0
    ensures Clear(s, e) ==> AllClear(s, [e])
  {
    hide Possible, Next, Clear;
    assert [e] + [] == [e];
    Prepend(s, e, []);
  }

  lemma {:induction false} Concatenate(s: System, a: seq<SystemEvent>, b: seq<SystemEvent>)
    requires AllPossible(s, a) && AllPossible(After(s, a), b)
    ensures AllPossible(s, a + b) && After(s, a + b) == After(After(s, a), b)
    ensures Operations(a + b) == Operations(a) + Operations(b)
    decreases a
  {
    hide Possible, Next;
    if a == [] {
      assert a + b == b;
    } else {
      assert (a + b)[0] == a[0] && (a + b)[1..] == a[1..] + b;
      Concatenate(Next(s, a[0]), a[1..], b);
    }
  }

  lemma Simple(s: System)
    ensures s.down != [] ==> Possible(s, Deliver) && Clear(s, Deliver)
    ensures s.queue != [] ==> Possible(s, Operate) && Clear(s, Operate)
    ensures s.up != [] ==> Possible(s, Receive) && Clear(s, Receive)
    ensures forall e: L.LockEvent :: !e.Remote? ==> Possible(s, AtLock(e)) && Clear(s, AtLock(e))
  {
  }

  function Operations(run: seq<SystemEvent>): nat
  {
    if run == [] then 0 else (if run[0].Operate? then 1 else 0) + Operations(run[1..])
  }

  // ---------- when an unseal is refused ----------

  /** A waiting command that can give the lock another key. */
  predicate Spoils(own: string, key: seq<byte>, y: Carried)
  {
    CommandOf(y.op.cmd) == Some(Seal) && y.op.lockId == Some(own) && y.op.key != key
  }

  predicate NoSpoilers(own: string, key: seq<byte>, commands: seq<Carried>)
  {
    forall y :: y in commands ==> !Spoils(own, key, y)
  }

  predicate IsUnseal(own: string, x: Carried)
  {
    CommandOf(x.op.cmd) == Some(Unseal) && x.op.lockId == Some(own)
  }

  /** The lock will operate on this command after n others. */
  predicate Queued(s: System, n: nat, x: Carried)
  {
    n < |s.queue + s.down| && (s.queue + s.down)[n] == x
  }

  /** The lock has no other key than the command's, and none of the commands in front can give it one. */
  predicate Harmless(s: System, n: nat, x: Carried)
  {
    Queued(s, n, x) && NoSpoilers(s.own, x.op.key, (s.queue + s.down)[..n]) && !L.WrongKey(s.lock, x.op.key)
  }

  /** The command is the lock's next, and the lock answers it with a key mismatch. */
  predicate Refused(s: System, x: Carried)
  {
    s.queue != [] && s.queue[0] == x && L.Code(s.lock, s.own, x.op) == Some(0x93)
  }

  /** Whatever happens, the command is not refused for its key once the n commands in front were operated on. */
  ghost predicate NeverRefused(s: System, n: nat, x: Carried)
  {
    forall later :: AllPossible(s, later) && Operations(later) == n ==> !Refused(After(s, later), x)
  }

  lemma Advance(own: string, key: seq<byte>, waiting: seq<Carried>, n: nat)
    requires 0 < n < |waiting| && NoSpoilers(own, key, waiting[..n])
    ensures NoSpoilers(own, key, waiting[1..][..n - 1]) && waiting[1..][n - 1] == waiting[n]
    ensures !Spoils(own, key, waiting[0])
  {
    hide Spoils;
    assert waiting[..n] == [waiting[0]] + waiting[1..][..n - 1];
  }

  lemma KeyStaysRight(lock: L.Lock, own: string, key: seq<byte>, y: Carried)
    requires !Spoils(own, key, y) && !L.WrongKey(lock, key)
    ensures !L.WrongKey(L.Next(lock, own, L.Remote(y.op)), key)
  {
  }

  lemma HarmlessOn(s: System, e: SystemEvent, n: nat, x: Carried)
    requires Harmless(s, n, x) && Possible(s, e) && (e.Operate? ==> n > 0)
    ensures Harmless(Next(s, e), if e.Operate? then n - 1 else n, x)
  {
    hide KeyBytes, Step, BeginStep, Heard, CarriedFor, KeypadReplies, Elsewhere, Answers, NoSpoilers;
    var waiting := s.queue + s.down;
    if e.Deliver? {
      assert s.queue + [s.down[0]] + s.down[1..] == waiting;
    } else if e.Issue? {
      var more := if e.written.Some? then [CarriedFor(s.server, e.request, e.seed, e.written.value)] else [];
      assert s.queue + (s.down + more) == waiting + more;
      assert (waiting + more)[..n] == waiting[..n];
    } else if e.Operate? {
      assert s.queue[1..] + s.down == waiting[1..];
      Advance(s.own, x.op.key, waiting, n);
      KeyStaysRight(s.lock, s.own, x.op.key, waiting[0]);
    }
  }

  lemma {:induction false} HarmlessLater(s: System, run: seq<SystemEvent>, n: nat, x: Carried)
    requires Harmless(s, n, x) && AllPossible(s, run) && Operations(run) <= n
    ensures Harmless(After(s, run), n - Operations(run), x)
    decreases run
  {
    hide Harmless, Next, Possible;
    if run != [] {
      var e, rest := run[0], run[1..];
      HarmlessOn(s, e, n, x);
      HarmlessLater(Next(s, e), rest, if e.Operate? then n - 1 else n, x);
    }
  }

  lemma HarmlessIsNotRefused(s: System, x: Carried)
    requires Harmless(s, 0, x)
    ensures !Refused(s, x)
  {
    hide NoSpoilers;
  }

  // ---------- runs that get it refused ----------

  lemma {:induction false} DeliverAll(s: System) returns (later: seq<SystemEvent>)
    ensures AllPossible(s, later) && Operations(later) == 0
    ensures
      var u := After(s, later);
      u.queue == s.queue + s.down && u.down == [] && u.lock == s.lock && u.own == s.own
    decreases |s.down|
  {
    if s.down == [] {
      later := [];
      assert s.queue + [] == s.queue;
    } else {
      var t := Next(s, Deliver);
      assert t.queue + t.down == s.queue + s.down && t.lock == s.lock && t.own == s.own;
      Simple(s);
      hide Next, Possible;
      var rest := DeliverAll(t);
      Prepend(s, Deliver, rest);
      later := [Deliver] + rest;
    }
  }

  /** The command is n places from the front of the lock's queue. */
  predicate Ready(s: System, n: nat, x: Carried)
  {
    s.down == [] && n < |s.queue| && s.queue[n] == x && IsUnseal(s.own, x)
  }

  lemma KeypadKeepsReady(s: System, e: L.LockEvent, n: nat, x: Carried)
    requires Ready(s, n, x) && !e.Remote?
    ensures
      var t := Next(s, AtLock(e));
      Ready(t, n, x) && t.queue == s.queue && t.own == s.own && t.lock == L.Next(s.lock, s.own, e)
  {
    hide IsUnseal, KeypadReplies, L.Next;
  }

  lemma OperateKeepsReady(s: System, n: nat, x: Carried)
    requires Ready(s, n, x) && n > 0
    ensures
      var t := Next(s, Operate);
      && Ready(t, n - 1, x) && t.queue == s.queue[1..] && t.own == s.own
      && t.lock == L.Next(s.lock, s.own, L.Remote(s.queue[0].op))
  {
    hide IsUnseal, Answers, L.Next;
  }

  /** A lock sealed on the keypad keeps its key through any remote operation. */
  lemma SealedKeepsKey(lock: L.Lock, own: string, op: L.Operation)
    ensures
      var sealed := L.Next(lock, own, L.KeypadSeal);
      sealed.state == L.Sealed && sealed.key == lock.key && L.Next(sealed, own, L.Remote(op)).key == lock.key
  {
  }

  /** Sealing on the keypad before every operation keeps a wrong key wrong. */
  lemma {:induction false} KeepWrong(s: System, n: nat, x: Carried) returns (later: seq<SystemEvent>)
    requires Ready(s, n, x) && L.WrongKey(s.lock, x.op.key)
    ensures AllPossible(s, later) && Operations(later) == n && Refused(After(s, later), x)
    decreases n
  {
    hide Next, Possible, Ready, L.Next;
    Simple(s);
    var t := Next(s, AtLock(L.KeypadSeal));
    KeypadKeepsReady(s, L.KeypadSeal, n, x);
    if n == 0 {
      SealedRefuses(s, x);
      JustOne(s, AtLock(L.KeypadSeal));
      later := [AtLock(L.KeypadSeal)];
    } else {
      SealedKeepsKey(s.lock, s.own, FrontOf(t, n, x).op);
      OperatePossible(t, n, x);
      OperateKeepsReady(t, n, x);
      var rest := KeepWrong(Next(t, Operate), n - 1, x);
      Prepend(t, Operate, rest);
      Prepend(s, AtLock(L.KeypadSeal), [Operate] + rest);
      later := [AtLock(L.KeypadSeal)] + ([Operate] + rest);
    }
  }

  lemma OperatePossible(s: System, n: nat, x: Carried)
    requires Ready(s, n, x)
    ensures Possible(s, Operate)
  {
  }

  function FrontOf(s: System, n: nat, x: Carried): Carried
    requires Ready(s, n, x)
  {
    s.queue[0]
  }

  lemma SealedRefuses(s: System, x: Carried)
    requires Ready(s, 0, x) && L.WrongKey(s.lock, x.op.key)
    ensures Refused(Next(s, AtLock(L.KeypadSeal)), x)
  {
    hide KeypadReplies;
  }

  /** A seal with another key can be made to succeed: the keypad opens the lock just before it. */
  lemma SpoilerTakesEffect(lock: L.Lock, own: string, key: seq<byte>, y: Carried)
    requires Spoils(own, key, y)
    ensures
      var sealed := L.Next(lock, own, L.KeypadSeal);
      var unlocked := L.Next(sealed, own, L.KeypadUnseal);
      var charged := L.Next(unlocked, own, L.Battery(false));
      L.WrongKey(L.Next(charged, own, L.Remote(y.op)), key)
  {
  }

  lemma {:induction false} MakeWrong(s: System, n: nat, j: nat, x: Carried) returns (later: seq<SystemEvent>)
    requires Ready(s, n, x) && j < n && Spoils(s.own, x.op.key, s.queue[j])
    ensures AllPossible(s, later) && Operations(later) == n && Refused(After(s, later), x)
    decreases n
  {
    hide Next, Possible, L.Next, Spoils, IsUnseal, L.WrongKey;
    if j == 0 {
      Simple(s);
      var s1 := Next(s, AtLock(L.KeypadSeal));
      Simple(s1);
      var s2 := Next(s1, AtLock(L.KeypadUnseal));
      Simple(s2);
      var s3 := Next(s2, AtLock(L.Battery(false)));
      KeypadKeepsReady(s, L.KeypadSeal, n, x);
      KeypadKeepsReady(s1, L.KeypadUnseal, n, x);
      KeypadKeepsReady(s2, L.Battery(false), n, x);
      OperatePossible(s3, n, x);
      OperateKeepsReady(s3, n, x);
      SpoilerTakesEffect(s.lock, s.own, x.op.key, s.queue[0]);
      var rest := KeepWrong(Next(s3, Operate), n - 1, x);
      Prepend(s3, Operate, rest);
      Prepend(s2, AtLock(L.Battery(false)), [Operate] + rest);
      Prepend(s1, AtLock(L.KeypadUnseal), [AtLock(L.Battery(false))] + ([Operate] + rest));
      Prepend(s, AtLock(L.KeypadSeal), [AtLock(L.KeypadUnseal)] + ([AtLock(L.Battery(false))] + ([Operate] + rest)));
      later := [AtLock(L.KeypadSeal)] + ([AtLock(L.KeypadUnseal)] + ([AtLock(L.Battery(false))] + ([Operate] + rest)));
    } else {
      OperatePossible(s, n, x);
      OperateKeepsReady(s, n, x);
      var rest := MakeWrong(Next(s, Operate), n - 1, j - 1, x);
      Prepend(s, Operate, rest);
      later := [Operate] + rest;
    }
  }

  lemma HarmfulIsRefused(s: System, n: nat, x: Carried) returns (later: seq<SystemEvent>)
    requires Queued(s, n, x) && IsUnseal(s.own, x) && !Harmless(s, n, x)
    ensures AllPossible(s, later) && Operations(later) == n && Refused(After(s, later), x)
  {
    hide Spoils, L.WrongKey, Refused;
    var first := DeliverAll(s);
    var t := After(s, first);
    var rest: seq<SystemEvent>;
    if L.WrongKey(s.lock, x.op.key) {
      rest := KeepWrong(t, n, x);
    } else {
      var y :| y in (s.queue + s.down)[..n] && Spoils(s.own, x.op.key, y);
      var j :| 0 <= j < n && (s.queue + s.down)[j] == y;
      rest := MakeWrong(t, n, j, x);
    }
    Concatenate(s, first, rest);
    later := first + rest;
  }

  /** In any state: an unseal for this lock, waiting behind n commands, is never refused for its key whatever happens
      next, if and only if the lock has no other key and none of those n is a seal for this lock with another key. */
  lemma NeverRefusedIff(s: System, n: nat, x: Carried)
    requires Queued(s, n, x) && IsUnseal(s.own, x)
    ensures NeverRefused(s, n, x) <==> Harmless(s, n, x)
  {
    hide Harmless, Refused;
    if Harmless(s, n, x) {
      forall later | AllPossible(s, later) && Operations(later) == n ensures !Refused(After(s, later), x) {
        HarmlessLater(s, later, n, x);
        HarmlessIsNotRefused(After(s, later), x);
      }
    } else {
      var later := HarmfulIsRefused(s, n, x);
    }
  }

  // ---------- an unseal with the stored key ----------

  /** The unseal a client sends with the key and the format the server has stored. */
  function StoredUnseal(s: System): Request
    requires s.device in s.server.keys
  {
    Request(s.device, s.session, Unseal, s.own, s.server.keys[s.device].key, s.server.keys[s.device].format)
  }

  /** A remote seal has succeeded, the server has a key for the device, and the unseal can be issued. */
  predicate CanUnseal(s: System, seed: nat, jt808: word)
  {
    s.remotelySealed && s.device in s.server.keys && Possible(s, Issue(StoredUnseal(s), seed, Some(jt808)))
  }

  function AfterUnseal(s: System, seed: nat, jt808: word): System
    requires CanUnseal(s, seed, jt808)
  {
    Next(s, Issue(StoredUnseal(s), seed, Some(jt808)))
  }

  function UnsealOf(s: System, seed: nat, jt808: word): Carried
    requires CanUnseal(s, seed, jt808)
  {
    CarriedFor(s.server, StoredUnseal(s), seed, jt808)
  }

  /** No seal's success reply is on its way that would store another key, and no seal for the lock with another key is
      waiting. */
  predicate KeySettled(s: System, key: seq<byte>)
  {
    && (SealOnItsWay(s.up) == None || SealOnItsWay(s.up) == Some(key))
    && NoSpoilers(s.own, key, s.queue + s.down)
  }

  /** In every state that a run reaches without writing a command under the serial of one in flight: an unseal with the
      stored key is never answered 0x93, whatever happens before the lock gets to it, if and only if the last successful
      seal whose reply is still on its way, if any, set the stored key, and no seal for this lock with another key is
      waiting. */
  lemma StoredKeyOpens(s: System, run: seq<SystemEvent>, t: System, seed: nat, jt808: word)
    requires Start(s) && AllPossible(s, run) && AllClear(s, run) && t == After(s, run) && CanUnseal(t, seed, jt808)
    ensures
      var x := UnsealOf(t, seed, jt808);
      NeverRefused(AfterUnseal(t, seed, jt808), |t.queue + t.down|, x) <==> KeySettled(t, x.op.key)
  {
    hide After, AllPossible, AllClear, Start, NeverRefused, Good, KeySettled;
    StartIsGood(s);
    RunKeepsGood(s, run);
    UnsealIsQueued(t, seed, jt808);
    NeverRefusedIff(AfterUnseal(t, seed, jt808), |t.queue + t.down|, UnsealOf(t, seed, jt808));
  }

  lemma UnsealIsQueued(t: System, seed: nat, jt808: word)
    requires Good(t) && CanUnseal(t, seed, jt808)
    ensures
      var v, n, x := AfterUnseal(t, seed, jt808), |t.queue + t.down|, UnsealOf(t, seed, jt808);
      Queued(v, n, x) && IsUnseal(v.own, x) && (Harmless(v, n, x) <==> KeySettled(t, x.op.key))
  {
    hide KeyBytes, BeginStep, NoSpoilers, Sound, AllFlightOk, Ordered, InFlight;
    var x := UnsealOf(t, seed, jt808);
    OneSuccessCode(x.op.cmd, Unseal);
    assert t.queue + (t.down + [x]) == (t.queue + t.down) + [x];
    assert ((t.queue + t.down) + [x])[..|t.queue + t.down|] == t.queue + t.down;
  }

  // ---------- an unseal behind a seal ----------

  /** A device that connects for the first time, its lock unsealed with a good battery and no key. */
  function FirstConnection(own: string): System
  {
    System(0, 0, own, EMPTY, L.Lock(L.Unsealed, None, None, L.VOLTAGE_GOOD, 0), [], [], [], false)
  }

  function SealWith(own: string, key: string, format: KeyFormat): Request
  {
    Request(0, 0, Seal, own, key, format)
  }

  /** Nothing is on its way and the lock is unsealed with a good battery. */
  predicate Quiet(s: System, own: string)
  {
    && s.device == 0 && s.session == 0 && s.own == own && s.queue == [] && s.down == [] && s.up == []
    && s.lock.state == L.Unsealed && s.lock.voltage == L.VOLTAGE_GOOD
  }

  /** A command issued with nothing in flight but commands under other serials. */
  lemma CanIssue(s: System, r: Request, jt808: word)
    requires r.device == s.device && r.session == s.session && Enabled(s.server, Begin(r, 0, Some(jt808)))
    requires forall x :: x in InFlight(s) ==> x.serial != BusinessSerial(s.server, s.device, 0)
    ensures Possible(s, Issue(r, 0, Some(jt808))) && Clear(s, Issue(r, 0, Some(jt808)))
    ensures
      var t, x := Next(s, Issue(r, 0, Some(jt808))), CarriedFor(s.server, r, 0, jt808);
      && t.down == s.down + [x] && t.server.keys == s.server.keys && InFlight(t) == InFlight(s) + [x]
      && x.serial != BusinessSerial(t.server, s.device, 0)
  {
    IssueFlight(s, r, 0, Some(jt808));
    hide KeyBytes, InFlight;
  }

  /** A command delivered, operated on, acknowledged and answered, then the keypad opens the lock and says so. */
  function ThenOpened(): seq<SystemEvent>
  {
    [Deliver] + ([Operate] + ([Receive] + ([Receive] + ([AtLock(L.KeypadUnseal)] + [Receive]))))
  }

  function FirstSeal(own: string, key: string, format: KeyFormat): seq<SystemEvent>
  {
    [Issue(SealWith(own, key, format), 0, Some(0))] + ThenOpened()
  }

  /** The states of that run after its first event. */
  lemma FirstSealStates(s1: System, own: string, x: Carried)
    requires s1 == FirstConnection(own).(server := s1.server, down := [x])
    requires x.op == L.Operation(CommandByte(Seal), Some(own), x.op.key)
    ensures
      var s2, s3 := Next(s1, Deliver), Next(Next(s1, Deliver), Operate);
      && s2.queue != [] && |s3.up| == 2
      && var s5 := Next(Next(s3, Receive), Receive);
         var s6 := Next(s5, AtLock(L.KeypadUnseal));
         s6.up != [] && var s7 := Next(s6, Receive);
         Quiet(s7, own) && s7.remotelySealed && s7.lock.key == Some(x.op.key)
  {
    hide Heard;
    OneSuccessCode(CommandByte(Seal), Seal);
    var s2, s3 := Next(s1, Deliver), Next(Next(s1, Deliver), Operate);
    assert s2.queue == [x] && s2.up == [Delivered(x.jt808)] && s3.queue == [] && |s3.up| == 2;
    var s4, s5 := Next(s3, Receive), Next(Next(s3, Receive), Receive);
    var s6 := Next(s5, AtLock(L.KeypadUnseal));
    assert s5.up == [] && |s6.up| == 1;
  }

  lemma OpenedRuns(s1: System)
    requires s1.down != [] && Next(s1, Deliver).queue != [] && |Next(Next(s1, Deliver), Operate).up| == 2
    requires
      var s5 := Next(Next(Next(Next(s1, Deliver), Operate), Receive), Receive);
      Next(s5, AtLock(L.KeypadUnseal)).up != []
    ensures AllPossible(s1, ThenOpened()) && AllClear(s1, ThenOpened())
    ensures
      var s5 := Next(Next(Next(Next(s1, Deliver), Operate), Receive), Receive);
      After(s1, ThenOpened()) == Next(Next(s5, AtLock(L.KeypadUnseal)), Receive)
  {
    var s2, s3 := Next(s1, Deliver), Next(Next(s1, Deliver), Operate);
    var s4 := Next(s3, Receive);
    assert s4.up == s3.up[1..] && s4.up != [];
    var s5 := Next(s4, Receive);
    var s6 := Next(s5, AtLock(L.KeypadUnseal));
    hide Next, Possible, After, AllPossible, Clear, AllClear;
    Simple(s1);
    Simple(s2);
    Simple(s3);
    Simple(s4);
    Simple(s5);
    Simple(s6);
    JustOne(s6, Receive);
    Prepend(s5, AtLock(L.KeypadUnseal), [Receive]);
    Prepend(s4, Receive, [AtLock(L.KeypadUnseal)] + [Receive]);
    Prepend(s3, Receive, [Receive] + ([AtLock(L.KeypadUnseal)] + [Receive]));
    Prepend(s2, Operate, [Receive] + ([Receive] + ([AtLock(L.KeypadUnseal)] + [Receive])));
    Prepend(s1, Deliver, [Operate] + ([Receive] + ([Receive] + ([AtLock(L.KeypadUnseal)] + [Receive]))));
  }

  lemma FirstIssued(own: string, key: string, format: KeyFormat)
    requires IsLockId(own) && KeyBytes(key, format).Ok?
    ensures
      var s, r := FirstConnection(own), SealWith(own, key, format);
      && Start(s) && Possible(s, Issue(r, 0, Some(0))) && Clear(s, Issue(r, 0, Some(0)))
      && var t := Next(s, Issue(r, 0, Some(0)));
         var x := CarriedFor(s.server, r, 0, 0);
         t == s.(server := t.server, down := [x])
  {
    var s, r := FirstConnection(own), SealWith(own, key, format);
    assert InFlight(s) == [];
    CanIssue(s, r, 0);
    hide KeyBytes, BeginStep, Clear, CarriedFor;
  }

  lemma FirstSealRuns(own: string, key: string, format: KeyFormat)
    requires IsLockId(own) && KeyBytes(key, format).Ok?
    ensures
      var s := FirstConnection(own);
      && Start(s) && AllPossible(s, FirstSeal(own, key, format)) && AllClear(s, FirstSeal(own, key, format))
      && var t := After(s, FirstSeal(own, key, format));
         Quiet(t, own) && t.remotelySealed && t.lock.key == Some(KeyBytes(key, format).value)
  {
    hide KeyBytes, Good, Quiet, Next, Possible, After, AllPossible, ThenOpened, Start, Clear, AllClear;
    var s, r := FirstConnection(own), SealWith(own, key, format);
    FirstIssued(own, key, format);
    var first := Issue(r, 0, Some(0));
    var s1, x := Next(s, first), CarriedFor(s.server, r, 0, 0);
    FirstSealStates(s1, own, x);
    OpenedRuns(s1);
    Prepend(s, first, ThenOpened());
  }

  /** Then a seal with another key and, before the lock has seen it, an unseal with the stored key. */
  function SealThenUnseal(t: System, key: string, format: KeyFormat): seq<SystemEvent>
    requires t.device in t.server.keys
  {
    [Issue(SealWith(t.own, key, format), 0, Some(1))]
    + ([Issue(StoredUnseal(t), 0, Some(2))] + ([Deliver] + ([Deliver] + [Operate])))
  }

  lemma SealWins(s: System, own: string, y: Carried, z: Carried, key: seq<byte>)
    requires s.own == own && s.queue == [] && s.down == [y, z]
    requires s.lock.state == L.Unsealed && s.lock.voltage == L.VOLTAGE_GOOD
    requires y.op == L.Operation(CommandByte(Seal), Some(own), key)
    requires z.op == L.Operation(CommandByte(Unseal), Some(own), z.op.key) && z.op.key != key
    ensures
      var s2 := Next(Next(s, Deliver), Deliver);
      && Next(s, Deliver).down != [] && s2.queue != []
      && var u := Next(s2, Operate);
         u.queue == [z] && L.Code(u.lock, own, z.op) == Some(0x93)
  {
    OneSuccessCode(CommandByte(Seal), Seal);
    OneSuccessCode(CommandByte(Unseal), Unseal);
    var s1, s2 := Next(s, Deliver), Next(Next(s, Deliver), Deliver);
    assert s1.queue == [y] && s1.down == [z];
    assert s2.queue == [y, z] && s2.down == [];
  }

  /** The condition on waiting seals is needed: a run in which an unseal with the stored key is issued behind a seal
      with another key, and is answered 0x93. */
  lemma WaitingSealRefuses(own: string, key1: string, format1: KeyFormat, key2: string, format2: KeyFormat)
    requires IsLockId(own) && KeyBytes(key1, format1).Ok? && KeyBytes(key2, format2).Ok?
    requires KeyBytes(key1, format1) != KeyBytes(key2, format2)
    ensures
      var s := FirstConnection(own);
      Start(s) && AllPossible(s, FirstSeal(own, key1, format1)) && AllClear(s, FirstSeal(own, key1, format1))
    ensures
      var t := After(FirstConnection(own), FirstSeal(own, key1, format1));
      && t.device in t.server.keys && AllPossible(t, SealThenUnseal(t, key2, format2))
      && AllClear(t, SealThenUnseal(t, key2, format2))
    ensures
      var t := After(FirstConnection(own), FirstSeal(own, key1, format1));
      var u := After(t, SealThenUnseal(t, key2, format2));
      && |u.queue| == 1 && u.queue[0].op == L.Operation(CommandByte(Unseal), Some(own), KeyBytes(key1, format1).value)
      && L.Code(u.lock, own, u.queue[0].op) == Some(0x93)
  {
    hide KeyBytes, BeginStep, Heard, Good, Start, Next, Possible, AllPossible, AllClear, After, FirstSeal, InFlight;
    var s := FirstConnection(own);
    FirstSealRuns(own, key1, format1);
    KeysAgree(s, FirstSeal(own, key1, format1));
    var t := After(s, FirstSeal(own, key1, format1));
    SealThenUnsealRuns(t, own, key2, format2);
  }

  lemma SealThenUnsealRuns(t: System, own: string, key: string, format: KeyFormat)
    requires Quiet(t, own) && StoredAgrees(t) && IsLockId(own) && KeyBytes(key, format).Ok?
    requires t.lock.key != Some(KeyBytes(key, format).value)
    ensures AllPossible(t, SealThenUnseal(t, key, format)) && AllClear(t, SealThenUnseal(t, key, format))
    ensures
      var u := After(t, SealThenUnseal(t, key, format));
      && |u.queue| == 1 && u.queue[0].op == L.Operation(CommandByte(Unseal), Some(own), t.lock.key.value)
      && L.Code(u.lock, own, u.queue[0].op) == Some(0x93)
  {
    hide KeyBytes, BeginStep, Heard, SerialClear;
    var seal, unseal := Issue(SealWith(own, key, format), 0, Some(1)), Issue(StoredUnseal(t), 0, Some(2));
    assert InFlight(t) == [];
    CanIssue(t, SealWith(own, key, format), 1);
    var t1 := Next(t, seal);
    CanIssue(t1, StoredUnseal(t), 2);
    var t2 := Next(t1, unseal);
    var y, z := CarriedFor(t.server, SealWith(own, key, format), 0, 1), CarriedFor(t1.server, StoredUnseal(t), 0, 2);
    assert t2.down == [y, z];
    SealWins(t2, own, y, z, KeyBytes(key, format).value);
    hide Next, Possible, After, AllPossible, Clear, AllClear;
    var t3, t4 := Next(t2, Deliver), Next(Next(t2, Deliver), Deliver);
    Simple(t2);
    Simple(t3);
    Simple(t4);
    JustOne(t4, Operate);
    Prepend(t3, Deliver, [Operate]);
    Prepend(t2, Deliver, [Deliver] + [Operate]);
    Prepend(t1, unseal, [Deliver] + ([Deliver] + [Operate]));
    Prepend(t, seal, [unseal] + ([Deliver] + ([Deliver] + [Operate])));
  }

  // ---------- beyond the window ----------

  /** The same command issued again and again, each time written, under the given JT/T 808 serials. */
  function Issues(r: Request, words: seq<word>): seq<SystemEvent>
  {
    if words == [] then [] else [Issue(r, 0, Some(words[0]))] + Issues(r, words[1..])
  }

  /** While commands are only issued, the server does what it does alone, and the connection fills up. */
  lemma {:induction false} IssuesRun(s: System, r: Request, words: seq<word>)
    requires r.device == s.device && r.session == s.session && AllEnabled(s.server, Writes(r, 0, words))
    ensures AllPossible(s, Issues(r, words))
    ensures
      var t := After(s, Issues(r, words));
      s.down <= t.down && t == s.(server := Run(s.server, Writes(r, 0, words)), down := t.down)
    decreases |words|
  {
    if words != [] {
      assert Issues(r, words)[1..] == Issues(r, words[1..]) && Writes(r, 0, words)[1..] == Writes(r, 0, words[1..]);
      var t := Next(s, Issue(r, 0, Some(words[0])));
      assert t == s.(server := BeginStep(s.server, r, 0, Some(words[0])), down := t.down) && s.down <= t.down;
      hide BeginStep, CarriedFor;
      IssuesRun(t, r, words[1..]);
    }
  }

  /** A seal and 65534 commands more, then a seal with another key under the first one's serial; then the lock gets the
      first seal, and the server its acknowledgement and its reply. */
  function DivergingRun(own: string, key1: string, format1: KeyFormat, key2: string, format2: KeyFormat,
                        words: seq<word>, last: word): seq<SystemEvent>
  {
    Issues(SealWith(own, key1, format1), words)
    + ([Issue(SealWith(own, key2, format2), 0, Some(last))] + ([Deliver] + ([Operate] + ([Receive] + [Receive]))))
  }

  /** The lock's side of the rest of that run. */
  lemma FirstSealAnswered(s: System, own: string, y: Carried)
    requires s.own == own && s.queue == [] && s.down != [] && s.down[0] == y && s.up == []
    requires s.lock.state == L.Unsealed && s.lock.voltage == L.VOLTAGE_GOOD
    requires y.op == L.Operation(CommandByte(Seal), Some(own), y.op.key)
    ensures
      var s1 := Next(s, Deliver);
      && s1.queue != []
      && var s2 := Next(s1, Operate);
         && s2.up == [Delivered(y.jt808), Answer(ReplyInfo(y.serial, SuccessCode(Seal), Some(own), true), Some(y))]
         && s2.server == s.server && s2.device == s.device && s2.session == s.session && s2.remotelySealed
         && s2.lock.key == Some(y.op.key)
  {
    OneSuccessCode(CommandByte(Seal), Seal);
    var s1 := Next(s, Deliver);
    assert s1.queue == [y] && s1.up == [Delivered(y.jt808)];
  }

  /** What the server makes of the acknowledgement and the reply to the first seal when a second holds its serial. */
  lemma SecondKeyStored(s: State, own: string, r: Request, last: word, info: ReplyInfo, acked: word)
    requires Sound(s) && r == SealWith(own, r.key, r.keyFormat) && Enabled(s, Begin(r, 0, Some(last)))
    requires info == ReplyInfo(BusinessSerial(s, r.device, 0), SuccessCode(Seal), Some(own), true)
    ensures
      var t := AckStep(BeginStep(s, r, 0, Some(last)), r.session, acked, 0);
      && r.device in ReplyStep(t, r.device, info).keys
      && ReplyStep(t, r.device, info).keys[r.device] == StoredKey(r.key, r.keyFormat)
  {
    var z, u := CarriedFor(s, r, 0, last), BeginStep(s, r, 0, Some(last));
    assert SameCommand(NewRow(r, z.serial, Pending), u.rows[z.id]);
    NewFlightOk(s, r, 0, last);
    OneSuccessCode(SuccessCode(Seal), Seal);
    OneSuccessCode(z.op.cmd, Seal);
    assert UplinkOk(own, Answer(info, Some(z)));
    BeginKeepsSound(s, r, 0, Some(last));
    hide Sound, KeyBytes, BeginStep, FlightOk, AckStep, ReplyStep, UplinkOk, CarriedFor;
    var t := AckStep(u, r.session, acked, 0);
    DeliveredCalm(u, r.session, acked, r.device, r.session);
    CalmKeepsFlight(u, t, r.device, r.session, z);
    AckKeepsSound(u, r.session, acked, 0);
    StepKeepsCommand(u, Ack(r.session, acked, 0), z.id);
    AnswerSettles(t, r.device, r.session, own, Answer(info, Some(z)));
  }

  /** The guard is needed: a run of commands that are all written, after which nothing is on its way to the server, and
      the stored key is that of a seal the lock has not even received, while the lock holds another. */
  lemma KeysCanDiverge(own: string, key1: string, format1: KeyFormat, key2: string, format2: KeyFormat,
                       words: seq<word>, last: word)
    requires IsLockId(own) && KeyBytes(key1, format1).Ok? && KeyBytes(key2, format2).Ok?
    requires KeyBytes(key1, format1) != KeyBytes(key2, format2) && |words| == SERIALS
    ensures
      var s := FirstConnection(own);
      Start(s) && AllPossible(s, DivergingRun(own, key1, format1, key2, format2, words, last))
    ensures
      var t := After(FirstConnection(own), DivergingRun(own, key1, format1, key2, format2, words, last));
      && t.remotelySealed && t.up == [] && t.lock.key == Some(KeyBytes(key1, format1).value)
      && t.device in t.server.keys && t.server.keys[t.device] == StoredKey(key2, format2) && !StoredAgrees(t)
  {
    var s, r1, r2 := FirstConnection(own), SealWith(own, key1, format1), SealWith(own, key2, format2);
    var second, rest := Issue(r2, 0, Some(last)), [Deliver] + ([Operate] + ([Receive] + [Receive]));
    hide KeyBytes, After, AllPossible, Issues, Next, Possible, FirstConnection, Start, InFlight;
    SealsWritten(own, r1, words);
    var t := After(s, Issues(r1, words));
    AfterSecond(t, own, r1, r2, last);
    Prepend(t, second, rest);
    Concatenate(s, Issues(r1, words), [second] + rest);
  }

  /** The connection after 65535 seals, of which the lock has received none: the first serial comes next. */
  predicate Crowded(s: System, own: string, key: seq<byte>)
  {
    && s.device == 0 && s.session == 0 && s.own == own && s.queue == [] && s.up == []
    && s.lock.state == L.Unsealed && s.lock.voltage == L.VOLTAGE_GOOD && Sound(s.server)
    && s.down != [] && s.down[0].serial == BusinessSerial(s.server, 0, 0)
    && s.down[0].op == L.Operation(CommandByte(Seal), Some(own), key)
  }

  lemma SealsWritten(own: string, r: Request, words: seq<word>)
    requires r == SealWith(own, r.key, r.keyFormat) && IsLockId(own) && KeyBytes(r.key, r.keyFormat).Ok?
    requires |words| == SERIALS
    ensures
      var s := FirstConnection(own);
      Start(s) && AllPossible(s, Issues(r, words))
      && Crowded(After(s, Issues(r, words)), own, KeyBytes(r.key, r.keyFormat).value)
  {
    hide KeyBytes, NthSerial, Run, Writes, Issues, AllPossible, After, AllEnabled, SerialsOk, Grown, BusinessSerial;
    var s := FirstConnection(own);
    EmptyIsNumbered(0, 0);
    WritesRun(EMPTY, r, 0, words);
    IssuesRun(s, r, words);
    var t := After(s, Issues(r, words));
    NextNumber(t.server, 0, 0);
    NextNumber(EMPTY, 0, 0);
    ComesRound(0, 1);
    FirstOnItsWay(s, r, words);
  }

  lemma FirstOnItsWay(s: System, r: Request, words: seq<word>)
    requires s.down == [] && r.device == s.device && r.session == s.session && words != []
    requires AllEnabled(s.server, Writes(r, 0, words))
    ensures AllPossible(s, Issues(r, words)) && After(s, Issues(r, words)).down != []
    ensures After(s, Issues(r, words)).down[0] == CarriedFor(s.server, r, 0, words[0])
  {
    assert Issues(r, words)[1..] == Issues(r, words[1..]) && Writes(r, 0, words)[1..] == Writes(r, 0, words[1..]);
    var t := Next(s, Issue(r, 0, Some(words[0])));
    assert t.down == [CarriedFor(s.server, r, 0, words[0])];
    hide BeginStep, CarriedFor;
    IssuesRun(t, r, words[1..]);
  }

  /** The rest of the run, from the second seal on. */
  lemma AfterSecond(s: System, own: string, r1: Request, r2: Request, last: word)
    requires r1 == SealWith(own, r1.key, r1.keyFormat) && r2 == SealWith(own, r2.key, r2.keyFormat) && IsLockId(own)
    requires KeyBytes(r1.key, r1.keyFormat).Ok? && KeyBytes(r2.key, r2.keyFormat).Ok?
    requires KeyBytes(r1.key, r1.keyFormat) != KeyBytes(r2.key, r2.keyFormat)
    requires Crowded(s, own, KeyBytes(r1.key, r1.keyFormat).value)
    ensures Possible(s, Issue(r2, 0, Some(last)))
    ensures
      var s3, rest := Next(s, Issue(r2, 0, Some(last))), [Deliver] + ([Operate] + ([Receive] + [Receive]));
      && AllPossible(s3, rest)
      && var t := After(s3, rest);
         && t.remotelySealed && t.up == [] && t.lock.key == Some(KeyBytes(r1.key, r1.keyFormat).value)
         && t.device in t.server.keys && t.server.keys[t.device] == StoredKey(r2.key, r2.keyFormat) && !StoredAgrees(t)
  {
    hide KeyBytes, BeginStep, Sound;
    var y, s3 := s.down[0], Next(s, Issue(r2, 0, Some(last)));
    assert s3.down[0] == y && s3.server == BeginStep(s.server, r2, 0, Some(last));
    FirstSealAnswered(s3, own, y);
    var s4, s5 := Next(s3, Deliver), Next(Next(s3, Deliver), Operate);
    SecondKeyStored(s.server, own, r2, last, ReplyInfo(y.serial, SuccessCode(Seal), Some(own), true), y.jt808);
    hide AckStep, ReplyStep, CarriedFor;
    var s6, s7 := Next(s5, Receive), Next(Next(s5, Receive), Receive);
    assert s6.up == [s5.up[1]] && s7.up == [];
    hide Next, Possible, AllPossible, After;
    Simple(s3);
    Simple(s4);
    Simple(s5);
    Simple(s6);
    JustOne(s6, Receive);
    Prepend(s5, Receive, [Receive]);
    Prepend(s4, Operate, [Receive] + [Receive]);
    Prepend(s3, Deliver, [Operate] + ([Receive] + [Receive]));
  }
}
