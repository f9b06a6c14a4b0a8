/** The writing side of server/src/tcp-listener/session.js: serial numbers and the bytes on the socket. */
module Session {
  import opened Bytes
  import opened EndToEnd
  import Packet
  import Framing

  /** `& 0xffff`. */
  function Wrap(n: nat): word
  {
    n % 0x1_0000
  }

  /** `stream` is everything written to the socket, `sent` the messages it stands for. */
  datatype State = State(serial: word, terminal: Option<seq<byte>>, closed: bool, txFrames: nat,
                         stream: seq<byte>, sent: seq<Packet.Message>)

  function MessageFor(s: State, msgId: int, body: seq<byte>): Packet.Message
    requires s.terminal.Some?
  {
    Packet.Message(msgId, Packet.RawId(s.terminal.value), s.serial, body, 0, None)
  }

  function Bumped(s: State): State
  {
    s.(serial := Wrap(s.serial as int + 1))
  }

  /** write: a serial is used up as soon as the session is known to be open, even when nothing is then written. */
  function Written(s: State, msgId: int, body: seq<byte>): State
  {
    if s.closed then s
    else if s.terminal.None? then Bumped(s)
    else
      match Packet.Encode(MessageFor(s, msgId, body))
      case Err(_) => Bumped(s)
      case Ok(e) =>
        Bumped(s).(txFrames := s.txFrames + 1, stream := s.stream + e.frame,
                   sent := s.sent + [MessageFor(s, msgId, body)])
  }

  function WriteResult(s: State, msgId: int, body: seq<byte>): Result<word>
  {
    if s.closed then Err("Session is closed")
    else if s.terminal.None? then Err("Terminal not identified yet")
    else match Packet.Encode(MessageFor(s, msgId, body)) case Err(code) => Err(code) case Ok(_) => Ok(s.serial)
  }

  class Session {
    var serial: word
    var terminalRaw: Option<seq<byte>>
    var closed: bool
    var txFrames: nat
    var stream: seq<byte>
    var sent: seq<Packet.Message>

    constructor ()
      ensures View() == FRESH
    {
      serial, terminalRaw, closed, txFrames, stream, sent := 0, None, false, 0, [], [];
    }

    function View(): State
      reads this
    {
      State(serial, terminalRaw, closed, txFrames, stream, sent)
    }

    method NextSerial() returns (s: word)
      modifies this`serial
      ensures s == old(serial) && serial == Wrap(old(serial) as int + 1)
    {
      s := serial;
      serial := Wrap(serial as int + 1);
    }

    /** What identify does to the session. */
    method Identify(raw: seq<byte>)
      modifies this
      ensures View() == Step(old(View()), Event.Identify(raw))
    {
      terminalRaw := Some(raw);
    }

    /** The close event of the socket. */
    method OnClose()
      modifies this
      ensures View() == Step(old(View()), Close)
    {
      closed := true;
    }

    method Write(msgId: int, body: seq<byte>) returns (r: Result<word>)
      modifies this
      ensures View() == Written(old(View()), msgId, body) && r == WriteResult(old(View()), msgId, body)
    {
      if closed {
        return Err("Session is closed");
      }
      var s := NextSerial();
      if terminalRaw.None? {
        return Err("Terminal not identified yet");
      }
      var m := Packet.Message(msgId, Packet.RawId(terminalRaw.value), s, body, 0, None);
      var e := Packet.EncodePacket(m);
      if e.Err? {
        return Err(e.code);
      }
      stream := stream + e.value.frame;
      sent := sent + [m];
      txFrames := txFrames + 1;
      return Ok(s);
    }
  }

  // ---------- runs of a session ----------

  /** identify stores the terminal ID of a frame as received; the close event closes the session for good. */
  datatype Event = Write(msgId: int, body: seq<byte>) | Identify(raw: seq<byte>) | Close

  function Step(s: State, e: Event): State
  {
    match e
    case Write(msgId, body) => Written(s, msgId, body)
    case Identify(raw) => s.(terminal := Some(raw))
    case Close => s.(closed := true)
  }

  function Run(s: State, events: seq<Event>): State
    decreases events
  {
    if events == [] then s else Run(Step(s, events[0]), events[1..])
  }

  const FRESH := State(0, None, false, 0, [], [])

  /** The stream is the frames of the messages sent, all of them accepted by the encoder. */
  predicate Consistent(s: State)
  {
    AllAccepted(s.sent) && s.stream == Wire(s.sent) && s.txFrames == |s.sent|
  }

  lemma {:induction false} WireAppend(messages: seq<Packet.Message>, m: Packet.Message)
    ensures Wire(messages + [m]) == Wire(messages) + if Accepted(m) then Packet.Encode(m).value.frame else []
  {
    hide Packet.Encode;
    if messages == [] {
      assert messages + [m] == [m] && [m][1..] == [];
    } else {
      assert (messages + [m])[1..] == messages[1..] + [m];
      WireAppend(messages[1..], m);
    }
  }

  lemma StepKeepsConsistent(s: State, e: Event)
    requires Consistent(s)
    ensures Consistent(Step(s, e))
  {
    hide Packet.Encode;
    if e.Write? && s.terminal.Some? {
      WireAppend(s.sent, MessageFor(s, e.msgId, e.body));
    }
  }

  lemma {:induction false} RunKeepsConsistent(s: State, events: seq<Event>)
    requires Consistent(s)
    ensures Consistent(Run(s, events))
    decreases events
  {
    if events != [] {
      hide Consistent, Step;
      StepKeepsConsistent(s, events[0]);
      RunKeepsConsistent(Step(s, events[0]), events[1..]);
    }
  }

  /** Whatever is written on a session before and after it is identified and until it closes, and however it is cut on
      the way, the other side decodes exactly the messages sent. */
  lemma SessionDelivers(events: seq<Event>, chunks: seq<seq<byte>>)
    requires Framing.Join(chunks) == Run(FRESH, events).stream
    ensures
      var sent := Run(FRESH, events).sent;
      var items := Framing.PushedAll(Framing.DEFAULT_MAX_FRAME_LENGTH, Framing.Fresh, chunks).items;
      |items| == |sent| && forall i :: 0 <= i < |sent| ==> Carries(items[i], sent[i])
  {
    RunKeepsConsistent(FRESH, events);
    MessagesDelivered(Run(FRESH, events).sent, chunks);
  }

  /** The writes before the session closes. */
  function OpenWrites(s: State, events: seq<Event>): nat
    decreases events
  {
    if events == [] then 0
    else (if events[0].Write? && !s.closed then 1 else 0) + OpenWrites(Step(s, events[0]), events[1..])
  }

  /** Every write on an open session uses up one serial, modulo 65536, whether or not it could be encoded, and nothing
      else does. */
  lemma {:induction false} SerialsRun(s: State, events: seq<Event>)
    ensures Run(s, events).serial == Wrap(s.serial as int + OpenWrites(s, events))
    decreases events
  {
    hide Packet.Encode;
    if events != [] {
      SerialsRun(Step(s, events[0]), events[1..]);
      if events[0].Write? && !s.closed {
        WrapTwice(s.serial as int + 1, OpenWrites(s, events) - 1);
      }
    }
  }

  lemma WrapTwice(x: nat, d: nat)
    ensures Wrap(Wrap(x) + d) == Wrap(x + d)
  {
    var w := x % 0x1_0000 + d;
    assert x + d == 0x1_0000 * (x / 0x1_0000) + w;
    assert w == 0x1_0000 * (w / 0x1_0000) + w % 0x1_0000;
    assert x + d == 0x1_0000 * (x / 0x1_0000 + w / 0x1_0000) + w % 0x1_0000;
  }

  lemma SameRemainder(x: nat, d: nat)
    ensures Wrap(x) == Wrap(x + d) <==> Wrap(d) == 0
  {
    var y := x + d;
    assert d == 0x1_0000 * (y / 0x1_0000 - x / 0x1_0000) + (y % 0x1_0000 - x % 0x1_0000);
  }

  /** Two points of a session have the same next serial exactly when a multiple of 65536 writes on the open session lies
      between them. */
  lemma SerialsDistinct(s: State, events: seq<Event>)
    ensures Run(s, events).serial == s.serial <==> Wrap(OpenWrites(s, events)) == 0
  {
    SerialsRun(s, events);
    WrapOfWord(s.serial);
    hide Wrap, Run;
    SameRemainder(s.serial, OpenWrites(s, events));
  }

  lemma WrapOfWord(w: word)
    ensures Wrap(w) == w
  {
  }
}
