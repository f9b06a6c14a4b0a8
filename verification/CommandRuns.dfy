/** Properties of runs of the command lifecycle in which serials do not collide, and runs that show what happens when
    they do. */
module CommandRuns {
  import opened Bytes
  import opened Elock
  import opened Commands
  import opened CommandSafety
  import opened CommandLaws

  // ---------- runs without a collision ----------

  /** A run in which no command is begun with a business serial that a pending command of its device still holds. */
  predicate Legal(s: State, run: seq<Event>)
    decreases run
  {
    run == [] || (Permitted(s, run[0]) && Legal(Step(s, run[0]), run[1..]))
  }

  lemma {:induction false} LegalIsEnabled(s: State, run: seq<Event>)
    requires Legal(s, run)
    ensures AllEnabled(s, run)
    decreases run
  {
    if run != [] {
      LegalIsEnabled(Step(s, run[0]), run[1..]);
    }
  }

  lemma {:induction false} RunKeepsInv(s: State, run: seq<Event>)
    requires Inv(s) && Legal(s, run) && AllEnabled(s, run)
    ensures Inv(Run(s, run))
    decreases run
  {
    hide Inv;
    if run != [] {
      StepKeepsInv(s, run[0]);
      RunKeepsInv(Step(s, run[0]), run[1..]);
    }
  }

  /** Without a collision no timer is ever stale, so statuses never fall. */
  lemma {:induction false} LegalIsNeverStale(s: State, run: seq<Event>, id: CommandId)
    requires Inv(s) && Legal(s, run) && AllEnabled(s, run)
    ensures !EverStale(s, run, id)
    decreases run
  {
    hide Inv, Step, Stale;
    if run != [] {
      NotStale(s, run[0], id);
      StepKeepsInv(s, run[0]);
      LegalIsNeverStale(Step(s, run[0]), run[1..], id);
    }
  }

  lemma NotStale(s: State, e: Event, id: CommandId)
    requires Inv(s)
    ensures !Stale(s, e, id)
  {
    hide Inv;
    if Stale(s, e, id) {
      var f := TimerFindsItsCommand(s, id);
    }
  }

  /** A row is open exactly while its own entry is pending. */
  predicate OpenIffPending(s: State)
  {
    forall i :: 0 <= i < |s.rows| ==> (Open(s.rows[i].status) <==> HasEntry(s.pending, i))
  }

  lemma InvMeansOpenIffPending(s: State)
    requires Inv(s)
    ensures OpenIffPending(s)
  {
    forall i | 0 <= i < |s.rows| && HasEntry(s.pending, i) ensures Open(s.rows[i].status) {
      var e :| e in s.pending && e.id == i;
      assert EntryOk(s, e);
    }
  }

  // ---------- the serial window ----------

  /** Fewer than 65535 commands, the next one included, are issued to the device after any of its pending ones. */
  predicate WindowOpen(s: State, d: DeviceId)
  {
    forall e :: e in s.pending && e.device == d && d in s.issued ==> s.issued[d].count + 1 < e.issue + SERIALS
  }

  predicate Windowed(s: State, run: seq<Event>)
    decreases run
  {
    run == [] ||
    (Enabled(s, run[0]) && (run[0].Begin? ==> WindowOpen(s, run[0].request.device))
      && Windowed(Step(s, run[0]), run[1..]))
  }

  /** The next serial is taken exactly when a pending command was issued a multiple of 65535 commands ago. */
  lemma SerialTaken(s: State, d: DeviceId, seed: nat)
    requires Inv(s)
    ensures !SerialFree(s, d, seed) <==>
            exists e :: e in s.pending && e.device == d && d in s.issued
              && (s.issued[d].count + 1 - e.issue) % SERIALS == 0
  {
    var k := PendingKey(d, BusinessSerial(s, d, seed));
    if d in s.issued {
      SerialSequence(s.issued[d].seed, s.issued[d].count);
    }
    forall e | e in s.pending && e.device == d
      ensures d in s.issued && (e.KeyOf() == k <==> (s.issued[d].count + 1 - e.issue) % SERIALS == 0)
    {
      assert EntryOk(s, e);
      SerialsDistinct(s.issued[d].seed, e.issue, s.issued[d].count + 1);
    }
  }

  lemma WindowMeansFree(s: State, d: DeviceId, seed: nat)
    requires Inv(s) && WindowOpen(s, d)
    ensures SerialFree(s, d, seed)
  {
    hide SerialsOk, RowsOk, OpenArePending, TimersOk, NthSerial, EntryOk, UniqueKeys, SerialFree;
    SerialTaken(s, d, seed);
    forall e | e in s.pending && e.device == d && d in s.issued
      ensures (s.issued[d].count + 1 - e.issue) % SERIALS != 0
    {
      IssuedBefore(s, e);
    }
  }

  lemma IssuedBefore(s: State, e: Entry)
    requires Inv(s) && e in s.pending && e.device in s.issued
    ensures 1 <= e.issue <= s.issued[e.device].count
  {
    assert EntryOk(s, e);
  }

  lemma {:induction false} WindowedIsLegal(s: State, run: seq<Event>)
    requires Inv(s) && Windowed(s, run)
    ensures Legal(s, run)
    decreases run
  {
    hide Inv, WindowOpen, SerialFree;
    if run != [] {
      if run[0].Begin? {
        WindowMeansFree(s, run[0].request.device, run[0].seed);
      }
      StepKeepsInv(s, run[0]);
      WindowedIsLegal(Step(s, run[0]), run[1..]);
    }
  }

  /** The lifecycle theorem: from a process just started on any table of well-formed rows, in every run in which fewer
      than 65535 commands are issued to a device while one of them is open, rows are open exactly while pending, and no
      status ever falls. */
  lemma OpenMeansPending(before: State, run: seq<Event>)
    requires RowsOk(before.rows) && Windowed(RestartStep(before), run)
    ensures
      var s := RestartStep(before);
      && AllEnabled(s, run) && OpenIffPending(Run(s, run)) && forall id :: AlwaysAdvances(s, run, id)
  {
    hide Inv, Legal, AlwaysAdvances, EverStale, Sound, RestartStep, Windowed, RowsOk;
    RestartKeeps(before);
    var s := RestartStep(before);
    WindowedIsLegal(s, run);
    LegalIsEnabled(s, run);
    RunKeepsInv(s, run);
    InvMeansOpenIffPending(Run(s, run));
    InvIsSound(s);
    forall id ensures AlwaysAdvances(s, run, id) {
      LegalIsNeverStale(s, run, id);
      StatusNeverFalls(s, run, id);
    }
  }

  /** Without the window it fails, exactly when the serial comes round to a pending command: its entry is overwritten
      and its row stays open with nothing pending. */
  lemma CollisionOrphans(s: State, r: Request, seed: nat, written: Option<word>)
    requires Inv(s) && Enabled(s, Begin(r, seed, written))
    ensures OpenIffPending(BeginStep(s, r, seed, written)) <==> SerialFree(s, r.device, seed)
  {
    hide NthSerial, SerialsOk;
    var t := BeginStep(s, r, seed, written);
    if SerialFree(s, r.device, seed) {
      BeginKeeps(s, r, seed, written);
      InvMeansOpenIffPending(t);
    } else {
      var e := Lookup(s.pending, PendingKey(r.device, BusinessSerial(s, r.device, seed))).value;
      assert EntryOk(s, e);
      if HasEntry(t.pending, e.id) {
        var f :| f in t.pending && f.id == e.id;
        SameIdSameEntry(s, e, f);
        assert false;
      }
      assert t.rows[e.id] == s.rows[e.id];
    }
  }

  /** Whether "open iff pending" holds before and after every step of a run. */
  predicate AlwaysOpenIffPending(s: State, run: seq<Event>)
    requires AllEnabled(s, run)
    decreases run
  {
    OpenIffPending(s) && (run == [] || AlwaysOpenIffPending(Step(s, run[0]), run[1..]))
  }

  /** The exact condition over runs: rows stay open exactly while pending throughout if and only if no command is begun
      under a serial that a pending command of its device holds. */
  lemma {:induction false} OpenIffPendingExactly(s: State, run: seq<Event>)
    requires Inv(s) && AllEnabled(s, run)
    ensures AlwaysOpenIffPending(s, run) <==> Legal(s, run)
    decreases run
  {
    hide Inv, Step, OpenIffPending, SerialFree;
    InvMeansOpenIffPending(s);
    if run != [] {
      if Permitted(s, run[0]) {
        StepKeepsInv(s, run[0]);
        OpenIffPendingExactly(Step(s, run[0]), run[1..]);
      } else {
        CollisionStep(s, run[0]);
      }
    }
  }

  lemma CollisionStep(s: State, e: Event)
    requires Inv(s) && Enabled(s, e) && !Permitted(s, e)
    ensures !OpenIffPending(Step(s, e))
  {
    hide Inv, OpenIffPending, BeginStep, SerialFree;
    CollisionOrphans(s, e.request, e.seed, e.written);
  }

  // ---------- what a collision leads to ----------

  lemma {:induction false} RunAppend(s: State, a: seq<Event>, b: seq<Event>)
    requires AllEnabled(s, a) && AllEnabled(Run(s, a), b)
    ensures AllEnabled(s, a + b) && Run(s, a + b) == Run(Run(s, a), b)
    decreases a
  {
    hide Step, Enabled;
    if a == [] {
      assert a + b == b;
    } else {
      assert (a + b)[0] == a[0] && (a + b)[1..] == a[1..] + b;
      RunAppend(Step(s, a[0]), a[1..], b);
    }
  }

  lemma RunOne(s: State, e: Event)
    requires Enabled(s, e)
    ensures AllEnabled(s, [e]) && Run(s, [e]) == Step(s, e)
  {
    assert [e][1..] == [];
    assert Run(Step(s, e), []) == Step(s, e);
  }

  /** The same command begun again and again, each time written, under the given JT/T 808 serials. */
  function Writes(r: Request, seed: nat, words: seq<word>): seq<Event>
  {
    if words == [] then [] else [Begin(r, seed, Some(words[0]))] + Writes(r, seed, words[1..])
  }

  /** Every row is a command of one device, numbered from the process's first serial for it. */
  predicate Numbered(s: State, d: DeviceId, seed: nat)
  {
    && Sound(s) && SerialsOk(s.serials, s.issued)
    && (s.rows == [] ==> d !in s.issued)
    && (s.rows != [] ==> d in s.issued && s.issued[d] == Issued(seed, |s.rows|))
    && forall i :: 0 <= i < |s.rows| ==> RowKey(s.rows[i]) == PendingKey(d, NthSerial(seed, i + 1))
  }

  /** Written commands add their rows, all pending with their timers armed, and leave what was there; the last of them
      has an entry. */
  predicate Grown(s: State, t: State, r: Request, seed: nat)
  {
    && s.rows <= t.rows && t.keys == s.keys
    && (forall i :: |s.rows| <= i < |t.rows| ==> t.rows[i] == NewRow(r, NthSerial(seed, i + 1), Pending))
    && s.timers.Keys <= t.timers.Keys && (forall i :: |s.rows| <= i < |t.rows| ==> i in t.timers)
    && (|s.rows| < |t.rows| ==> HasEntry(t.pending, |t.rows| - 1))
  }

  lemma NextNumber(s: State, d: DeviceId, seed: nat)
    requires Numbered(s, d, seed)
    ensures BusinessSerial(s, d, seed) == NthSerial(seed, |s.rows| + 1)
    ensures IssuedTo(s, d, seed) == Issued(seed, |s.rows|)
  {
    SerialSequence(seed, |s.rows| + 1);
    if s.rows != [] {
      SerialSequence(seed, |s.rows|);
    }
    hide Sound;
  }

  lemma WriteOnce(s: State, r: Request, seed: nat, jt808: word)
    requires Numbered(s, r.device, seed)
    ensures
      var t := BeginStep(s, r, seed, Some(jt808));
      |t.rows| == |s.rows| + 1 && Numbered(t, r.device, seed) && Grown(s, t, r, seed)
  {
    hide Sound, SerialsOk, NthSerial, BusinessSerial, IssuedTo;
    var t := BeginStep(s, r, seed, Some(jt808));
    NextNumber(s, r.device, seed);
    BeginKeepsSound(s, r, seed, Some(jt808));
    BeginSerials(s, r, seed, Some(jt808));
    var e := Entry(|s.rows|, r.device, r.session, r.command, jt808, BusinessSerial(s, r.device, seed), r.key, false,
                   IssuedTo(s, r.device, seed).count + 1);
    assert e in t.pending;
  }

  lemma {:induction false} WritesRun(s: State, r: Request, seed: nat, words: seq<word>)
    requires Numbered(s, r.device, seed) && Enabled(s, Begin(r, seed, None))
    ensures AllEnabled(s, Writes(r, seed, words))
    ensures
      var t := Run(s, Writes(r, seed, words));
      |t.rows| == |s.rows| + |words| && Numbered(t, r.device, seed) && Grown(s, t, r, seed)
    decreases |words|
  {
    hide BeginStep, Numbered, NthSerial, HasEntry;
    if words != [] {
      var t := BeginStep(s, r, seed, Some(words[0]));
      WriteOnce(s, r, seed, words[0]);
      assert Writes(r, seed, words)[1..] == Writes(r, seed, words[1..]);
      WritesRun(t, r, seed, words[1..]);
    }
  }

  /** A command that holds the serial of another leaves it no entry. */
  lemma OneEntryPerKey(s: State, i: CommandId, j: CommandId)
    requires Sound(s) && i < |s.rows| && j < |s.rows| && i != j && RowKey(s.rows[i]) == RowKey(s.rows[j])
    requires HasEntry(s.pending, j)
    ensures !HasEntry(s.pending, i)
  {
    hide Sound, UniqueKeys;
    var f :| f in s.pending && f.id == j;
    IsAnchored(s, f);
    forall e | e in s.pending ensures e.id != i {
      IsAnchored(s, e);
      if e.KeyOf() == f.KeyOf() {
        SameKey(s, e, f);
      }
    }
  }

  lemma SameKey(s: State, e: Entry, f: Entry)
    requires Sound(s) && e in s.pending && f in s.pending && e.KeyOf() == f.KeyOf()
    ensures e == f
  {
    SameKeySameEntry(s.pending, e, f);
  }

  lemma EmptyIsNumbered(d: DeviceId, seed: nat)
    ensures Numbered(EMPTY, d, seed)
  {
  }

  lemma ComesRound(seed: nat, i: nat)
    requires i >= 1
    ensures NthSerial(seed, i + SERIALS) == NthSerial(seed, i)
  {
    SerialsDistinct(seed, i, i + SERIALS);
  }

  /** A run to an open row with nothing pending: 65536 commands, all of them written. */
  lemma CollisionReachable(r: Request, seed: nat, words: seq<word>)
    requires Enabled(EMPTY, Begin(r, seed, None)) && |words| == SERIALS + 1
    ensures AllEnabled(EMPTY, Writes(r, seed, words))
    ensures !OpenIffPending(Run(EMPTY, Writes(r, seed, words)))
  {
    hide Writes, Run, AllEnabled, Sound, SerialsOk, NthSerial, HasEntry;
    EmptyIsNumbered(r.device, seed);
    WritesRun(EMPTY, r, seed, words);
    ComesRound(seed, 1);
    var t := Run(EMPTY, Writes(r, seed, words));
    OneEntryPerKey(t, 0, SERIALS);
    assert Open(t.rows[0].status);
  }

  /** The reply to the request's command that echoes the process's first serial. */
  function Echo(r: Request, seed: nat): ReplyInfo
  {
    ReplyInfo(NthSerial(seed, 1), SuccessCode(r.command), None, false)
  }

  lemma ReplyKeepsNumbered(s: State, d: DeviceId, seed: nat, info: ReplyInfo)
    requires Numbered(s, d, seed)
    ensures Numbered(ReplyStep(s, d, info), d, seed) && |ReplyStep(s, d, info).rows| == |s.rows|
  {
    hide NthSerial, SerialsOk, Sound, Correlate, ReplyOutcome, Without;
    ReplyKeepsSound(s, d, info);
    forall i: nat | i < |s.rows| ensures RowKey(ReplyStep(s, d, info).rows[i]) == RowKey(s.rows[i]) {
      StepKeepsCommand(s, Event.Reply(d, info), i);
    }
  }

  /** Two commands hold the first serial: the first reply settles the newer, whose entry is the one pending. */
  lemma NewerIsAnswered(s: State, r: Request, seed: nat)
    requires Numbered(s, r.device, seed) && |s.rows| == SERIALS + 1 && HasEntry(s.pending, SERIALS) && 0 in s.timers
    ensures
      var t := ReplyStep(s, r.device, Echo(r, seed));
      && |t.rows| == |s.rows| && t.rows[0] == s.rows[0] && t.rows[SERIALS].status == Completed && 0 in t.timers
      && Lookup(t.pending, PendingKey(r.device, NthSerial(seed, 1))).None?
  {
    ComesRound(seed, 1);
    hide NthSerial, SerialsOk, UniqueKeys, ReplyOutcome;
    var e :| e in s.pending && e.id == SERIALS;
    LookupFinds(s.pending, e);
  }

  /** The second reply finds the older, which nothing pending hides any more; its timer stays armed. */
  lemma OlderIsAnswered(s: State, r: Request, seed: nat)
    requires Numbered(s, r.device, seed) && |s.rows| == SERIALS + 1 && s.rows[SERIALS].status == Completed
    requires Lookup(s.pending, PendingKey(r.device, NthSerial(seed, 1))).None? && 0 in s.timers
    requires s.rows[0].status == Pending && s.rows[0].command == r.command
    ensures
      var t := ReplyStep(s, r.device, Echo(r, seed));
      |t.rows| == |s.rows| && Successful(t, 0) && 0 in t.timers
  {
    var found := FindLate(s.rows, r.device, NthSerial(seed, 1));
    assert Late(s.rows[0], r.device, NthSerial(seed, 1));
    if found.value > 0 {
      SerialsDistinct(seed, 1, found.value + 1);
    }
    hide NthSerial, SerialsOk, Sound;
    OneSuccessCode(SuccessCode(r.command), r.command);
  }

  /** 65536 commands, the lock's replies to the two under the first serial, and 65535 commands more. */
  function FallingRun(r: Request, seed: nat, before: seq<word>, after: seq<word>): seq<Event>
  {
    var reply := Event.Reply(r.device, Echo(r, seed));
    Writes(r, seed, before) + ([reply] + ([reply] + Writes(r, seed, after)))
  }

  /** The condition is needed: a run from a fresh process, all its commands written, leaves a command completed with
      outcome success, and when the timer that is still armed for it fires, the command becomes a timeout. */
  lemma StatusCanFall(r: Request, seed: nat, before: seq<word>, after: seq<word>)
    requires Enabled(EMPTY, Begin(r, seed, None)) && |before| == SERIALS + 1 && |after| == SERIALS
    ensures AllEnabled(EMPTY, FallingRun(r, seed, before, after))
    ensures
      var s := Run(EMPTY, FallingRun(r, seed, before, after));
      && Successful(s, 0) && Enabled(s, TimerFires(0)) && Stale(s, TimerFires(0), 0)
      && 0 < |TimeoutStep(s, 0).rows| && TimeoutStep(s, 0).rows[0].status == Timeout
  {
    hide AllEnabled, Run, ReplyStep, Writes, Numbered, NthSerial, HasEntry, Successful, Stale, Echo;
    EmptyIsNumbered(r.device, seed);
    WritesRun(EMPTY, r, seed, before);
    var s1 := Run(EMPTY, Writes(r, seed, before));
    var reply := Event.Reply(r.device, Echo(r, seed));
    NewerIsAnswered(s1, r, seed);
    ReplyKeepsNumbered(s1, r.device, seed, Echo(r, seed));
    var s2 := ReplyStep(s1, r.device, Echo(r, seed));
    OlderIsAnswered(s2, r, seed);
    ReplyKeepsNumbered(s2, r.device, seed, Echo(r, seed));
    var s3 := ReplyStep(s2, r.device, Echo(r, seed));
    WritesRun(s3, r, seed, after);
    var s4 := Run(s3, Writes(r, seed, after));
    TimerIsStale(s3, s4, r, seed);
    StaleFalls(s4);
    RunOne(s1, reply);
    RunOne(s2, reply);
    RunAppend(s2, [reply], Writes(r, seed, after));
    RunAppend(s1, [reply], [reply] + Writes(r, seed, after));
    RunAppend(EMPTY, Writes(r, seed, before), [reply] + ([reply] + Writes(r, seed, after)));
  }

  /** The command that gets the first serial again is what the armed timer then finds. */
  lemma TimerIsStale(s: State, t: State, r: Request, seed: nat)
    requires |s.rows| == SERIALS + 1 && Successful(s, 0) && 0 in s.timers
    requires |t.rows| == |s.rows| + SERIALS && Numbered(t, r.device, seed) && Grown(s, t, r, seed)
    ensures Successful(t, 0) && Enabled(t, TimerFires(0)) && Stale(t, TimerFires(0), 0)
  {
    ComesRound(seed, 1);
    ComesRound(seed, 1 + SERIALS);
    hide NthSerial, SerialsOk, UniqueKeys;
    var e :| e in t.pending && e.id == 2 * SERIALS;
    IsAnchored(t, e);
  }

  lemma StaleFalls(s: State)
    requires Enabled(s, TimerFires(0)) && Stale(s, TimerFires(0), 0)
    ensures 0 < |TimeoutStep(s, 0).rows| && TimeoutStep(s, 0).rows[0].status == Timeout
  {
  }

  /** A reply that echoes the serial of a pending command settles exactly that command; one that comes after the
      timeout settles the newest command with that serial. */
  lemma ReplyFindsItsCommand(s: State, id: CommandId, r: ReplyInfo)
    requires Inv(s) && id < |s.rows| && r.serial == s.rows[id].serial
    requires Open(s.rows[id].status) || s.rows[id].status == Timeout
    requires s.rows[id].status == Timeout ==>
               && Lookup(s.pending, PendingKey(s.rows[id].device, r.serial)).None?
               && forall j :: id < j < |s.rows| ==> RowKey(s.rows[j]) != PendingKey(s.rows[id].device, r.serial)
    ensures var found := Correlate(s, s.rows[id].device, r);
      && found.Some? && found.value.id == id && found.value.via != OldestPending
  {
    assert RowOk(s.rows[id]);
    if Open(s.rows[id].status) {
      var e := OpenIsFound(s, id);
    }
  }
}
