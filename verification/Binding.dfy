/** Which session speaks for a device: server/src/tcp-listener/session-manager.js and the frame and disconnect
    handling of server/src/services/protocol-handler.js. Sessions and devices are numbered; a device number stands for
    the device row of one terminal ID, and a connection keeps the terminal ID of its first frame. */
module Binding {
  import opened Bytes

  type SessionId = nat
  type Device = nat

  /** destroyed: the server has closed the socket; closed: its close event has been seen; finished: onDisconnect ran. */
  datatype Session = Session(device: Option<Device>, authenticated: bool, destroyed: bool, closed: bool, finished: bool)

  datatype DeviceRow = DeviceRow(online: bool, authenticated: bool)

  const OFFLINE := DeviceRow(false, false)

  datatype State = State(sessions: map<SessionId, Session>, all: set<SessionId>, byDevice: map<Device, SessionId>,
                         rows: map<Device, DeviceRow>)

  datatype Event =
    | Accept(session: SessionId)
    | FrameEvent(session: SessionId, device: Device, authenticate: Option<bool>)
    | SocketClosed(session: SessionId)
    | Disconnect(session: SessionId)

  /** What the listener can do next: frames and disconnects of one session are processed in order, a disconnect after
      its close event and nothing after a disconnect. */
  predicate Enabled(s: State, e: Event)
  {
    match e
    case Accept(id) => id !in s.sessions
    case FrameEvent(id, d, _) => id in s.sessions && !s.sessions[id].finished
      && (s.sessions[id].device == None || s.sessions[id].device == Some(d))
    case SocketClosed(id) => id in s.sessions && !s.sessions[id].closed
    case Disconnect(id) => id in s.sessions && s.sessions[id].closed && !s.sessions[id].finished
  }

  // ---------- SessionManager ----------

  /** getByDeviceId. */
  function Live(s: State, d: Device): Option<SessionId>
  {
    if d in s.byDevice && s.byDevice[d] in s.sessions && !s.sessions[s.byDevice[d]].closed then Some(s.byDevice[d])
      else None
  }

  /** close: does nothing to a session whose close event was seen. */
  function Destroyed(s: State, id: SessionId): State
    requires id in s.sessions
  {
    if s.sessions[id].closed then s else s.(sessions := s.sessions[id := s.sessions[id].(destroyed := true)])
  }

  /** bind: closes the session bound so far, if it is another one. */
  function Bound(s: State, id: SessionId, d: Device): State
  {
    var t := if d in s.byDevice && s.byDevice[d] != id && s.byDevice[d] in s.sessions then Destroyed(s, s.byDevice[d])
      else s;
    t.(byDevice := t.byDevice[d := id])
  }

  /** remove: unbinds only the binding of this very session. */
  function Removed(s: State, id: SessionId): State
    requires id in s.sessions
  {
    var device := s.sessions[id].device;
    var t := s.(all := s.all - {id});
    if device.Some? && device.value in s.byDevice && s.byDevice[device.value] == id
    then t.(byDevice := s.byDevice - {device.value}) else t
  }

  // ---------- ProtocolHandler ----------

  function RowOf(s: State, d: Device): DeviceRow
  {
    if d in s.rows then s.rows[d] else OFFLINE
  }

  /** identify: the first frame of a session binds it to its device. */
  function Identified(s: State, id: SessionId, d: Device): State
    requires id in s.sessions
  {
    if s.sessions[id].device == Some(d) then s
    else
      var t := Bound(s, id, d);
      t.(sessions := t.sessions[id := s.sessions[id].(device := Some(d))],
        rows := t.rows[d := RowOf(t, d).(online := true)])
  }

  /** handleItem for a valid frame; `authenticate` is the verdict when the frame is an authentication. */
  function Handled(s: State, id: SessionId, d: Device, authenticate: Option<bool>): State
    requires id in s.sessions
  {
    var t := Identified(s, id, d);
    var u := t.(rows := t.rows[d := RowOf(t, d).(online := true)]);
    match authenticate
    case None => u
    case Some(accept) =>
      u.(rows := u.rows[d := u.rows[d].(authenticated := accept)],
         sessions := u.sessions[id := u.sessions[id].(authenticated := accept)])
  }

  /** onDisconnect: the device goes offline unless a live session is bound to it. */
  function Disconnected(s: State, id: SessionId): State
    requires id in s.sessions
  {
    var t := Removed(s, id);
    var u := t.(sessions := t.sessions[id := t.sessions[id].(finished := true)]);
    var device := s.sessions[id].device;
    if device.Some? && Live(t, device.value).None? then u.(rows := u.rows[device.value := OFFLINE]) else u
  }

  function Step(s: State, e: Event): State
    requires Enabled(s, e)
  {
    match e
    case Accept(id) => s.(sessions := s.sessions[id := Session(None, false, false, false, false)], all := s.all + {id})
    case FrameEvent(id, d, authenticate) => Handled(s, id, d, authenticate)
    case SocketClosed(id) => s.(sessions := s.sessions[id := s.sessions[id].(closed := true)])
    case Disconnect(id) => Disconnected(s, id)
  }

  // ---------- the classes of the source ----------

  class Listener {
    var sessions: map<SessionId, Session>
    var all: set<SessionId>
    var byDevice: map<Device, SessionId>
    var rows: map<Device, DeviceRow>

    constructor (rows: map<Device, DeviceRow>)
      ensures View() == State(map[], {}, map[], rows)
    {
      sessions, all, byDevice := map[], {}, map[];
      this.rows := rows;
    }

    function View(): State
      reads this
    {
      State(sessions, all, byDevice, rows)
    }

    method Add(id: SessionId)
      requires Enabled(View(), Accept(id))
      modifies this
      ensures View() == Step(old(View()), Accept(id))
    {
      sessions := sessions[id := Session(None, false, false, false, false)];
      all := all + {id};
    }

    method Close(id: SessionId)
      requires id in sessions
      modifies this
      ensures View() == Destroyed(old(View()), id)
    {
      if sessions[id].closed {
        return;
      }
      sessions := sessions[id := sessions[id].(destroyed := true)];
    }

    method Bind(id: SessionId, d: Device)
      modifies this
      ensures View() == Bound(old(View()), id, d)
    {
      if d in byDevice && byDevice[d] != id && byDevice[d] in sessions {
        Close(byDevice[d]);
      }
      byDevice := byDevice[d := id];
    }

    method Remove(id: SessionId)
      requires id in sessions
      modifies this
      ensures View() == Removed(old(View()), id)
    {
      all := all - {id};
      var device := sessions[id].device;
      if device.Some? && device.value in byDevice && byDevice[device.value] == id {
        byDevice := byDevice - {device.value};
      }
    }

    method GetByDeviceId(d: Device) returns (id: Option<SessionId>)
      ensures id == Live(View(), d)
    {
      if d in byDevice && byDevice[d] in sessions && !sessions[byDevice[d]].closed {
        return Some(byDevice[d]);
      }
      return None;
    }

    method Identify(id: SessionId, d: Device)
      requires id in sessions
      modifies this
      ensures View() == Identified(old(View()), id, d)
    {
      if sessions[id].device == Some(d) {
        return;
      }
      var session := sessions[id];
      Bind(id, d);
      sessions := sessions[id := session.(device := Some(d))];
      rows := rows[d := RowOf(View(), d).(online := true)];
    }

    method HandleItem(id: SessionId, d: Device, authenticate: Option<bool>)
      requires Enabled(View(), FrameEvent(id, d, authenticate))
      modifies this
      ensures View() == Step(old(View()), FrameEvent(id, d, authenticate))
    {
      Identify(id, d);
      rows := rows[d := RowOf(View(), d).(online := true)];
      if authenticate.Some? {
        rows := rows[d := rows[d].(authenticated := authenticate.value)];
        sessions := sessions[id := sessions[id].(authenticated := authenticate.value)];
      }
    }

    method OnDisconnect(id: SessionId)
      requires Enabled(View(), Disconnect(id))
      modifies this
      ensures View() == Step(old(View()), Disconnect(id))
    {
      Remove(id);
      var device := sessions[id].device;
      if device.Some? {
        var live := GetByDeviceId(device.value);
        if live.None? {
          rows := rows[device.value := OFFLINE];
        }
      }
      sessions := sessions[id := sessions[id].(finished := true)];
    }
  }
}

/** What holds of bindings and online status over every run of the listener. */
module BindingLaws {
  import opened Bytes
  import opened Binding

  predicate AllFinished(s: State, d: Device)
  {
    forall id :: id in s.sessions && s.sessions[id].device == Some(d) ==> s.sessions[id].finished
  }

  ghost predicate Sessions(s: State)
  {
    && (forall id :: id in s.all <==> id in s.sessions && !s.sessions[id].finished)
    && (forall id :: id in s.sessions && s.sessions[id].finished ==> s.sessions[id].closed)
  }

  predicate Bindings(s: State)
  {
    && (forall d :: d in s.byDevice ==>
          s.byDevice[d] in s.sessions && s.sessions[s.byDevice[d]].device == Some(d)
            && !s.sessions[s.byDevice[d]].finished)
    && (forall d :: d in s.byDevice && !s.sessions[s.byDevice[d]].closed ==> RowOf(s, d).online)
  }

  ghost predicate Valid(s: State)
  {
    Sessions(s) && Bindings(s) && forall d :: AllFinished(s, d) ==> RowOf(s, d) == OFFLINE
  }

  /** The listener starts with no session and every known device offline. */
  predicate Initial(s: State)
  {
    s.sessions == map[] && s.all == {} && s.byDevice == map[] && forall d :: d in s.rows ==> s.rows[d] == OFFLINE
  }

  lemma StepKeepsValid(s: State, e: Event)
    requires Valid(s) && Enabled(s, e)
    ensures Valid(Step(s, e))
  {
    var t := Step(s, e);
    match e
    case Accept(id) => AcceptKeeps(s, id);
    case FrameEvent(id, d, authenticate) => FrameKeeps(s, id, d, authenticate);
    case SocketClosed(id) =>
      forall d: Device | AllFinished(t, d)
        ensures AllFinished(s, d)
      {
        forall x | x in s.sessions && s.sessions[x].device == Some(d)
          ensures s.sessions[x].finished
        {
          assert t.sessions[x].finished;
        }
      }
    case Disconnect(id) => DisconnectKeeps(s, id);
  }

  lemma AcceptKeeps(s: State, id: SessionId)
    requires Valid(s) && Enabled(s, Accept(id))
    ensures Valid(Step(s, Accept(id)))
  {
    var t := Step(s, Accept(id));
    forall d: Device | AllFinished(t, d)
      ensures AllFinished(s, d)
    {
      forall x | x in s.sessions && s.sessions[x].device == Some(d)
        ensures s.sessions[x].finished
      {
        assert t.sessions[x] == s.sessions[x];
      }
    }
  }

  /** What the first and every later frame of a session changes. */
  lemma IdentifyEffects(s: State, id: SessionId, d: Device)
    requires Valid(s) && Enabled(s, FrameEvent(id, d, None))
    ensures
      var t := Identified(s, id, d);
      && t.sessions.Keys == s.sessions.Keys && t.all == s.all
      && (forall x :: x in s.sessions ==>
          t.sessions[x].finished == s.sessions[x].finished && t.sessions[x].closed == s.sessions[x].closed)
      && (forall x :: x in s.sessions && x != id ==> t.sessions[x].device == s.sessions[x].device)
      && t.sessions[id].device == Some(d)
      && (t.byDevice == s.byDevice || t.byDevice == s.byDevice[d := id])
      && (forall c :: c != d ==> RowOf(t, c) == RowOf(s, c))
  {
  }

  lemma IdentifyKeeps(s: State, id: SessionId, d: Device)
    requires Valid(s) && Enabled(s, FrameEvent(id, d, None))
    ensures
      var t := Identified(s, id, d);
      && Valid(t.(rows := t.rows[d := RowOf(t, d).(online := true)]))
      && id in t.sessions && t.sessions[id].device == Some(d) && !t.sessions[id].finished
  {
    hide Identified, RowOf;
    IdentifyEffects(s, id, d);
    var i := Identified(s, id, d);
    var t := i.(rows := i.rows[d := RowOf(i, d).(online := true)]);
    RowsElsewhere(i, t, d);
    assert !t.sessions[id].finished;
    forall c: Device | AllFinished(t, c)
      ensures RowOf(t, c) == OFFLINE
    {
      forall x | x in s.sessions && s.sessions[x].device == Some(c)
        ensures s.sessions[x].finished
      {
        assert t.sessions[x].finished == s.sessions[x].finished;
      }
      assert AllFinished(s, c);
    }
  }

  lemma RowsElsewhere(s: State, t: State, d: Device)
    requires t == s.(rows := s.rows[d := RowOf(s, d).(online := true)])
    ensures RowOf(t, d).online && forall c :: c != d ==> RowOf(t, c) == RowOf(s, c)
  {
  }

  lemma AuthenticateKeeps(s: State, id: SessionId, d: Device, accept: bool)
    requires Valid(s) && id in s.sessions && s.sessions[id].device == Some(d) && !s.sessions[id].finished && d in s.rows
    ensures Valid(s.(rows := s.rows[d := s.rows[d].(authenticated := accept)],
                     sessions := s.sessions[id := s.sessions[id].(authenticated := accept)]))
  {
    var t := s.(rows := s.rows[d := s.rows[d].(authenticated := accept)],
                sessions := s.sessions[id := s.sessions[id].(authenticated := accept)]);
    forall c: Device | AllFinished(t, c)
      ensures c != d && RowOf(t, c) == OFFLINE
    {
      assert !t.sessions[id].finished;
      forall x | x in s.sessions && s.sessions[x].device == Some(c)
        ensures s.sessions[x].finished
      {
        assert t.sessions[x].finished == s.sessions[x].finished;
      }
      assert AllFinished(s, c);
    }
  }

  lemma FrameKeeps(s: State, id: SessionId, d: Device, authenticate: Option<bool>)
    requires Valid(s) && Enabled(s, FrameEvent(id, d, authenticate))
    ensures Valid(Handled(s, id, d, authenticate))
  {
    hide Valid, Identified;
    IdentifyKeeps(s, id, d);
    if authenticate.Some? {
      var t := Identified(s, id, d);
      AuthenticateKeeps(t.(rows := t.rows[d := RowOf(t, d).(online := true)]), id, d, authenticate.value);
    }
  }

  /** A device all of whose sessions have finished after a disconnect is offline. */
  lemma DisconnectOffline(s: State, id: SessionId, c: Device)
    requires Valid(s) && Enabled(s, Disconnect(id)) && AllFinished(Disconnected(s, id), c)
    ensures RowOf(Disconnected(s, id), c) == OFFLINE
  {
    var t := Disconnected(s, id);
    if s.sessions[id].device != Some(c) {
      forall x | x in s.sessions && s.sessions[x].device == Some(c)
        ensures s.sessions[x].finished
      {
        assert t.sessions[x] == s.sessions[x];
      }
      assert AllFinished(s, c);
    } else if Live(Removed(s, id), c).Some? {
      LiveIsUnfinished(s, id, c);
    }
  }

  lemma LiveIsUnfinished(s: State, id: SessionId, c: Device)
    requires Valid(s) && Enabled(s, Disconnect(id)) && Live(Removed(s, id), c).Some?
    ensures !AllFinished(Disconnected(s, id), c)
  {
    var x := Live(Removed(s, id), c).value;
    assert Disconnected(s, id).sessions[x].device == Some(c) && !Disconnected(s, id).sessions[x].finished;
  }

  lemma DisconnectBindings(s: State, id: SessionId)
    requires Valid(s) && Enabled(s, Disconnect(id))
    ensures Sessions(Disconnected(s, id)) && Bindings(Disconnected(s, id))
  {
    hide AllFinished;
  }

  lemma DisconnectKeeps(s: State, id: SessionId)
    requires Valid(s) && Enabled(s, Disconnect(id))
    ensures Valid(Disconnected(s, id))
  {
    DisconnectBindings(s, id);
    hide AllFinished, Sessions, Bindings;
    forall c: Device | AllFinished(Disconnected(s, id), c)
      ensures RowOf(Disconnected(s, id), c) == OFFLINE
    {
      DisconnectOffline(s, id, c);
    }
  }

  // ---------- whole runs ----------

  /** A list of events each of which is possible when its turn comes. */
  predicate Run(s: State, events: seq<Event>)
    decreases events
  {
    events != [] ==> Enabled(s, events[0]) && Run(Step(s, events[0]), events[1..])
  }

  function After(s: State, events: seq<Event>): State
    requires Run(s, events)
    decreases events
  {
    if events == [] then s else After(Step(s, events[0]), events[1..])
  }

  lemma {:induction false} RunKeepsValid(s: State, events: seq<Event>)
    requires Valid(s) && Run(s, events)
    ensures Valid(After(s, events))
    decreases events
  {
    hide Valid, Step, Enabled;
    if events != [] {
      StepKeepsValid(s, events[0]);
      RunKeepsValid(Step(s, events[0]), events[1..]);
    }
  }

  lemma InitialIsValid(s: State)
    requires Initial(s)
    ensures Valid(s)
  {
  }

  /** Over every run: a device with a live bound session is online and that session is its own; and once every session
      of a device has finished, the device is offline, unauthenticated and unbound. */
  lemma OnlineStatusIsTrue(s: State, events: seq<Event>, d: Device)
    requires Initial(s) && Run(s, events)
    ensures
      var t := After(s, events);
      && (Live(t, d).Some? ==>
          RowOf(t, d).online && t.sessions[Live(t, d).value].device == Some(d)
            && !t.sessions[Live(t, d).value].finished)
      && (AllFinished(t, d) ==> RowOf(t, d) == OFFLINE && d !in t.byDevice)
  {
    InitialIsValid(s);
    RunKeepsValid(s, events);
    var t := After(s, events);
    if AllFinished(t, d) && d in t.byDevice {
      assert false;
    }
  }

  /** A session that has spoken for a device and is not the one bound to it. */
  predicate Replaced(s: State, id: SessionId, d: Device)
  {
    id in s.sessions && s.sessions[id].device == Some(d) && !(d in s.byDevice && s.byDevice[d] == id)
  }

  /** No event binds it again: not a late frame of its own, nor whatever other sessions do. */
  lemma StepKeepsReplaced(s: State, e: Event, id: SessionId, d: Device)
    requires Enabled(s, e) && Replaced(s, id, d)
    ensures Replaced(Step(s, e), id, d)
  {
  }

  lemma {:induction false} ReplacedForGood(s: State, events: seq<Event>, id: SessionId, d: Device)
    requires Run(s, events) && Replaced(s, id, d)
    ensures Replaced(After(s, events), id, d)
    decreases events
  {
    hide Replaced, Step, Enabled;
    if events != [] {
      StepKeepsReplaced(s, events[0], id, d);
      ReplacedForGood(Step(s, events[0]), events[1..], id, d);
    }
  }

  /** The newer session's first frame replaces the session bound so far. */
  lemma FirstFrameReplaces(s: State, former: SessionId, newer: SessionId, d: Device, authenticate: Option<bool>)
    requires Valid(s) && d in s.byDevice && s.byDevice[d] == former
    requires Enabled(s, FrameEvent(newer, d, authenticate)) && s.sessions[newer].device.None?
    ensures Replaced(Step(s, FrameEvent(newer, d, authenticate)), former, d)
  {
  }

  lemma DisconnectOfReplaced(s: State, id: SessionId, d: Device)
    requires Enabled(s, Disconnect(id)) && Replaced(s, id, d)
    ensures
      var t := Step(s, Disconnect(id));
      t.byDevice == s.byDevice && (Live(s, d).Some? ==> t.rows == s.rows && Live(t, d) == Live(s, d))
  {
  }

  /** Once the first frame of a newer session has replaced a session at any point of any run, then over every
      continuation, late frames, closes and disconnects included, the old session is never bound again; and whenever
      its disconnect is processed, every binding stays as it is, and so does the device row while a live session is
      bound. */
  lemma ReplacedDisconnectIsHarmless(s: State, before: seq<Event>, former: SessionId, newer: SessionId, d: Device,
                                     authenticate: Option<bool>, later: seq<Event>)
    requires Initial(s) && Run(s, before)
    requires
      var t := After(s, before);
      && d in t.byDevice && t.byDevice[d] == former
      && Enabled(t, FrameEvent(newer, d, authenticate)) && t.sessions[newer].device.None?
      && Run(Step(t, FrameEvent(newer, d, authenticate)), later)
    ensures
      var u := After(Step(After(s, before), FrameEvent(newer, d, authenticate)), later);
      && Replaced(u, former, d)
      && (Enabled(u, Disconnect(former)) ==>
            var v := Step(u, Disconnect(former));
            v.byDevice == u.byDevice && (Live(u, d).Some? ==> v.rows == u.rows && Live(v, d) == Live(u, d)))
  {
    hide Valid, Replaced, Step, Live;
    InitialIsValid(s);
    RunKeepsValid(s, before);
    var t := After(s, before);
    FirstFrameReplaces(t, former, newer, d, authenticate);
    var u := After(Step(t, FrameEvent(newer, d, authenticate)), later);
    ReplacedForGood(Step(t, FrameEvent(newer, d, authenticate)), later, former, d);
    if Enabled(u, Disconnect(former)) {
      DisconnectOfReplaced(u, former, d);
    }
  }

  /** The first frame of a session makes it the one bound to its device, puts the device online and closes the session
      that was bound before; no other binding changes. */
  lemma NewestSessionWins(s: State, events: seq<Event>, id: SessionId, d: Device, authenticate: Option<bool>)
    requires Initial(s) && Run(s, events)
    requires
      var t := After(s, events);
      Enabled(t, FrameEvent(id, d, authenticate)) && t.sessions[id].device.None?
    ensures
      var t := After(s, events);
      var u := Step(t, FrameEvent(id, d, authenticate));
      && u.byDevice == t.byDevice[d := id] && RowOf(u, d).online
      && (d in t.byDevice ==>
            t.byDevice[d] != id && t.byDevice[d] in t.sessions
              && (t.sessions[t.byDevice[d]].closed || u.sessions[t.byDevice[d]].destroyed))
      && (forall c :: c != d ==> RowOf(u, c) == RowOf(t, c))
  {
    InitialIsValid(s);
    RunKeepsValid(s, events);
  }
}
