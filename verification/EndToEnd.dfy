/** The protocol layers on top of each other: what one side encodes, TCP cuts into chunks and the other side decodes. */
module EndToEnd {
  import opened Bytes
  import opened Elock
  import BusinessFrame
  import BusinessFrameLaws
  import Packet
  import Framing
  import FramingLaws
  import Escape
  import L = SimLock

  const PASSTHROUGH_ELOCK: byte := 0x81
  const DOWNLINK_PASSTHROUGH: word := 0x8900
  const UPLINK_PASSTHROUGH: word := 0x0900

  // ---------- passthrough bodies ----------

  function PassthroughBytes(kind: byte, content: seq<byte>): seq<byte>
  {
    [kind] + content
  }

  datatype Passthrough = Business(frame: BusinessFrame.Decoded) | OtherType(kind: byte, content: seq<byte>) | EmptyBody

  function DecodePassthrough(direction: BusinessFrame.Direction, body: seq<byte>, options: BusinessFrame.Options,
                             tzOffsetMinutes: int): Passthrough
  {
    if body == [] then EmptyBody
    else if body[0] != PASSTHROUGH_ELOCK then OtherType(body[0], body[1..])
    else Business(BusinessFrame.Decode(direction, body[1..], options, tzOffsetMinutes))
  }

  // ---------- any list of messages ----------

  predicate Accepted(m: Packet.Message)
  {
    Packet.Encode(m).Ok?
  }

  /** The frames of the accepted messages of a list, one after the other; a refused message writes nothing. */
  function Wire(messages: seq<Packet.Message>): seq<byte>
  {
    if messages == [] then []
    else (if Accepted(messages[0]) then Packet.Encode(messages[0]).value.frame else []) + Wire(messages[1..])
  }

  predicate AllAccepted(messages: seq<Packet.Message>)
  {
    forall i :: 0 <= i < |messages| ==> Accepted(messages[i])
  }

  function Payload(m: Packet.Message): seq<byte>
    requires Accepted(m)
  {
    Escape.Escaped(Packet.Encode(m).value.unescaped)
  }

  function Payloads(messages: seq<Packet.Message>): (p: seq<seq<byte>>)
    requires AllAccepted(messages)
    ensures |p| == |messages|
    ensures forall i :: 0 <= i < |p| ==> p[i] == Payload(messages[i])
  {
    seq(|messages|, i requires 0 <= i < |messages| => Payload(messages[i]))
  }

  lemma {:induction false} WireIsStream(messages: seq<Packet.Message>)
    requires AllAccepted(messages)
    ensures Wire(messages) == FramingLaws.Stream(Payloads(messages))
  {
    hide Packet.Encode, Escape.Escaped;
    if messages != [] {
      Packet.EscapedPacketBound(messages[0]);
      WireIsStream(messages[1..]);
      assert Payloads(messages)[1..] == Payloads(messages[1..]);
    }
  }

  /** The item is a frame that decodes to the message. */
  predicate Carries(item: Framing.Item, m: Packet.Message)
  {
    && item.Frame? && Packet.IsWord(m.msgId) && Packet.EncodeTerminalId(m.terminal).Ok?
    && var d := Packet.Decode(item.data);
       d.ok && d.header == Some(Packet.HeaderOf(m)) && d.body == m.body
  }

  lemma PayloadCarries(m: Packet.Message)
    requires Accepted(m)
    ensures Carries(Framing.Frame(Payload(m)), m) && FramingLaws.Sendable(Framing.DEFAULT_MAX_FRAME_LENGTH, Payload(m))
  {
    Packet.EscapedPacketBound(m);
    Packet.PacketRoundTrip(m);
    hide Packet.Decode, Escape.Escaped;
  }

  /** Whatever list of messages the encoder accepts, and however TCP cuts their bytes, the decoder at its default limit
      hands over exactly one frame per message, in order, each of which decodes to that message; nothing is discarded
      and nothing is left over. */
  lemma MessagesDelivered(messages: seq<Packet.Message>, chunks: seq<seq<byte>>)
    requires AllAccepted(messages) && Framing.Join(chunks) == Wire(messages)
    ensures
      var out := Framing.PushedAll(Framing.DEFAULT_MAX_FRAME_LENGTH, Framing.Fresh, chunks);
      && |out.items| == |messages| && out.state.buffer == []
      && forall i :: 0 <= i < |messages| ==> Carries(out.items[i], messages[i])
  {
    hide Accepted, Carries, Payload, Framing.PushedAll, FramingLaws.Sendable;
    var payloads := Payloads(messages);
    WireIsStream(messages);
    forall i | 0 <= i < |messages|
      ensures Carries(Framing.Frame(payloads[i]), messages[i])
      ensures FramingLaws.Sendable(Framing.DEFAULT_MAX_FRAME_LENGTH, payloads[i])
    {
      PayloadCarries(messages[i]);
    }
    FramingLaws.StreamDelivered(Framing.DEFAULT_MAX_FRAME_LENGTH, payloads, chunks);
  }

  // ---------- commands to the lock ----------

  /** A command as execute hands it to its encoders. */
  datatype Outgoing = Outgoing(params: OperationParams, businessSerial: word, terminal: seq<byte>, jt808: word)

  /** encodeLockOperation, encodeBusinessFrame, encodePassthrough, then the packet. */
  function CommandMessage(c: Outgoing, options: BusinessFrame.Options): Packet.Message
    requires LockOperationBytes(c.params).Ok?
  {
    var data := LockOperationBytes(c.params).value;
    var frame := BusinessFrame.Encode(data, c.businessSerial, [], options);
    Packet.Message(DOWNLINK_PASSTHROUGH, Packet.RawId(c.terminal), c.jt808,
                   PassthroughBytes(PASSTHROUGH_ELOCK, if frame.Ok? then frame.value else []), 0, None)
  }

  predicate Encodable(c: Outgoing)
  {
    LockOperationBytes(c.params).Ok? && |c.terminal| == 6
  }

  /** What the simulated lock acts on when an item of its decoder is a lock operation. */
  datatype Heard = Heard(jt808: word, serial: word, op: L.Operation)

  function HearBody(header: Packet.Header, body: seq<byte>, options: BusinessFrame.Options,
                    tzOffsetMinutes: int): Option<Heard>
  {
    match DecodePassthrough(BusinessFrame.Downlink, body, options, tzOffsetMinutes)
    case Business(Decoded(f)) =>
      if f.payload.Operation?
      then
        var op := f.payload.operation;
        Some(Heard(header.serial, f.serial, L.Operation(op.cmd, op.lockId, op.key)))
      else None
    case _ => None
  }

  function Hear(item: Framing.Item, options: BusinessFrame.Options, tzOffsetMinutes: int): Option<Heard>
  {
    match item
    case Garbage(_, _) => None
    case Frame(data) =>
      var d := Packet.Decode(data);
      if d.ok && d.header.Some? && d.header.value.msgId == DOWNLINK_PASSTHROUGH
      then HearBody(d.header.value, d.body, options, tzOffsetMinutes)
      else None
  }

  lemma CommandFrame(c: Outgoing, options: BusinessFrame.Options)
    requires Encodable(c)
    ensures
      var frame := BusinessFrame.Encode(LockOperationBytes(c.params).value, c.businessSerial, [], options);
      frame.Ok? && |frame.value| == LOCK_OPERATION_LENGTH + 6
  {
    hide LockOperationBytes;
  }

  lemma CommandAccepted(c: Outgoing, options: BusinessFrame.Options)
    requires Encodable(c)
    ensures Accepted(CommandMessage(c, options))
  {
    CommandFrame(c, options);
    hide LockOperationBytes, BusinessFrame.Encode;
    Packet.EncodeAccepts(CommandMessage(c, options));
  }

  /** The decoded data does not depend on the LEN and CRC configuration of the receiver. */
  lemma OptionsAreEvidence(direction: BusinessFrame.Direction, buf: seq<byte>, a: BusinessFrame.Options,
                           b: BusinessFrame.Options, tzOffsetMinutes: int)
    ensures
      match (BusinessFrame.Decode(direction, buf, a, tzOffsetMinutes),
             BusinessFrame.Decode(direction, buf, b, tzOffsetMinutes))
      case (Decoded(f), Decoded(g)) => f.data == g.data && f.additional == g.additional && f.serial == g.serial
        && f.payload == g.payload
      case (Refused(e), Refused(f)) => e == f
      case _ => false
  {
  }

  /** The body of a command message gives the lock the command byte, LockID, key bytes and serial it was built from,
      whatever LEN and CRC settings the two sides have. */
  lemma CommandHeard(c: Outgoing, options: BusinessFrame.Options, header: Packet.Header, theirs: BusinessFrame.Options,
                     tzOffsetMinutes: int)
    requires Encodable(c)
    ensures
      KeyBytes(c.params.key, c.params.keyFormat).Ok? &&
      HearBody(header, CommandMessage(c, options).body, theirs, tzOffsetMinutes)
      == Some(Heard(header.serial, c.businessSerial,
                    L.Operation(c.params.cmd, Some(c.params.lockId), KeyBytes(c.params.key, c.params.keyFormat).value)))
  {
    hide LockOperationBytes, BusinessFrame.Encode, BusinessFrame.Decode, KeyBytes, DecodeLockOperation;
    var data := LockOperationBytes(c.params).value;
    CommandFrame(c, options);
    var frame := BusinessFrame.Encode(data, c.businessSerial, [], options).value;
    assert ([PASSTHROUGH_ELOCK] + frame)[1..] == frame;
    OperationByte(c.params);
    BusinessFrameLaws.BusinessFrameRoundTrip(BusinessFrame.Downlink, data, c.businessSerial, [], options,
      tzOffsetMinutes);
    OptionsAreEvidence(BusinessFrame.Downlink, frame, options, theirs, tzOffsetMinutes);
    CommandDecodes(c.params, tzOffsetMinutes);
  }

  lemma OperationByte(p: OperationParams)
    requires LockOperationBytes(p).Ok?
    ensures LockOperationBytes(p).value[0] == LOCK_OPERATION
  {
  }

  /** Whatever time zone the lock assumes, only the decoded time depends on it. */
  lemma CommandDecodes(p: OperationParams, tzOffsetMinutes: int)
    requires LockOperationBytes(p).Ok?
    ensures
      match DecodeBusinessData(LockOperationBytes(p).value, tzOffsetMinutes)
      case Operation(op) => op.cmd == p.cmd && op.lockId == Some(p.lockId) && KeyBytes(p.key, p.keyFormat) == Ok(op.key)
      case _ => false
  {
    hide LockOperationBytes, KeyBytes;
    LockOperationRoundTrip(p);
    OperationByte(p);
  }

  predicate AllEncodable(commands: seq<Outgoing>)
  {
    forall i :: 0 <= i < |commands| ==> Encodable(commands[i])
  }

  function CommandMessages(commands: seq<Outgoing>, options: BusinessFrame.Options): (m: seq<Packet.Message>)
    requires AllEncodable(commands)
    ensures |m| == |commands|
    ensures forall i :: 0 <= i < |m| ==> m[i] == CommandMessage(commands[i], options)
  {
    seq(|commands|, i requires 0 <= i < |commands| => CommandMessage(commands[i], options))
  }

  /** The item makes the lock act on the command byte, LockID, key bytes and serials of the command. */
  predicate HeardAs(item: Framing.Item, c: Outgoing, options: BusinessFrame.Options, tzOffsetMinutes: int)
  {
    && KeyBytes(c.params.key, c.params.keyFormat).Ok?
    && var key := KeyBytes(c.params.key, c.params.keyFormat).value;
       Hear(item, options, tzOffsetMinutes)
         == Some(Heard(c.jt808, c.businessSerial, L.Operation(c.params.cmd, Some(c.params.lockId), key)))
  }

  lemma CommandIsHeard(c: Outgoing, options: BusinessFrame.Options, item: Framing.Item, theirs: BusinessFrame.Options,
                       tzOffsetMinutes: int)
    requires Encodable(c) && Carries(item, CommandMessage(c, options))
    ensures HeardAs(item, c, theirs, tzOffsetMinutes)
  {
    hide LockOperationBytes, KeyBytes, HearBody, Packet.Decode, Packet.HeaderOf, CommandMessage;
    CommandHeader(c, options);
    CommandHeard(c, options, Packet.HeaderOf(CommandMessage(c, options)), theirs, tzOffsetMinutes);
  }

  lemma CommandHeader(c: Outgoing, options: BusinessFrame.Options)
    requires Encodable(c)
    ensures
      var m := CommandMessage(c, options);
      && Packet.IsWord(m.msgId) && Packet.EncodeTerminalId(m.terminal).Ok?
      && Packet.HeaderOf(m).msgId == DOWNLINK_PASSTHROUGH && Packet.HeaderOf(m).serial == c.jt808
  {
    hide LockOperationBytes, BusinessFrame.Encode;
  }

  /** A server's commands survive the whole stack: pushed through any TCP chunking, each reaches the lock as the same
      command byte, LockID digits, key bytes and serials, all of them and in order. */
  lemma CommandsDelivered(commands: seq<Outgoing>, options: BusinessFrame.Options, chunks: seq<seq<byte>>,
                          theirs: BusinessFrame.Options, tzOffsetMinutes: int)
    requires AllEncodable(commands) && Framing.Join(chunks) == Wire(CommandMessages(commands, options))
    ensures
      var items := Framing.PushedAll(Framing.DEFAULT_MAX_FRAME_LENGTH, Framing.Fresh, chunks).items;
      |items| == |commands| && forall i :: 0 <= i < |commands| ==>
        HeardAs(items[i], commands[i], theirs, tzOffsetMinutes)
  {
    hide Accepted, Carries, HeardAs, Encodable, Framing.PushedAll, CommandMessage;
    var messages := CommandMessages(commands, options);
    forall i | 0 <= i < |messages| ensures Accepted(messages[i]) {
      CommandAccepted(commands[i], options);
    }
    MessagesDelivered(messages, chunks);
    var items := Framing.PushedAll(Framing.DEFAULT_MAX_FRAME_LENGTH, Framing.Fresh, chunks).items;
    forall i | 0 <= i < |commands| ensures HeardAs(items[i], commands[i], theirs, tzOffsetMinutes) {
      CommandIsHeard(commands[i], options, items[i], theirs, tzOffsetMinutes);
    }
  }

  // ---------- reports to the server ----------

  /** Business data of a documented length, current or legacy, with additional information of a documented size. */
  datatype Report = Report(data: seq<byte>, businessSerial: word, additional: seq<byte>, terminal: seq<byte>,
                           jt808: word)

  predicate Reportable(r: Report)
  {
    BusinessFrameLaws.Documented(BusinessFrame.Uplink, r.data, r.additional) && |r.terminal| == 6
  }

  predicate Misread(r: Report)
  {
    BusinessFrameLaws.TailMisread(BusinessFrame.Uplink, r.data, r.additional)
  }

  function ReportMessage(r: Report, options: BusinessFrame.Options): Packet.Message
  {
    var frame := BusinessFrame.Encode(r.data, r.businessSerial, r.additional, options);
    Packet.Message(UPLINK_PASSTHROUGH, Packet.RawId(r.terminal), r.jt808,
                   PassthroughBytes(PASSTHROUGH_ELOCK, if frame.Ok? then frame.value else []), 0, None)
  }

  /** The business frame the server reads from an item of its decoder. */
  function HearReport(item: Framing.Item, options: BusinessFrame.Options, tzOffsetMinutes: int)
    : Option<BusinessFrame.Frame>
  {
    match item
    case Garbage(_, _) => None
    case Frame(data) =>
      var d := Packet.Decode(data);
      if d.ok && d.header.Some? && d.header.value.msgId == UPLINK_PASSTHROUGH then
        match DecodePassthrough(BusinessFrame.Uplink, d.body, options, tzOffsetMinutes)
        case Business(Decoded(f)) => Some(f)
        case _ => None
      else None
  }

  /** The frame is what was reported, except that a misread one takes 35 bytes for the data. */
  predicate FrameIs(f: BusinessFrame.Frame, r: Report, tzOffsetMinutes: int)
  {
    && f.serial == r.businessSerial && f.payload == DecodeBusinessData(f.data, tzOffsetMinutes)
    && ((f.data == r.data && f.additional == r.additional) <==> !Misread(r))
    && (Misread(r) ==>
          f.data == r.data + [BusinessFrame.TAIL] + r.additional[..9] && f.additional == r.additional[10..])
  }

  predicate ReportHeardAs(item: Framing.Item, r: Report, options: BusinessFrame.Options, tzOffsetMinutes: int)
  {
    var f := HearReport(item, options, tzOffsetMinutes);
    f.Some? && FrameIs(f.value, r, tzOffsetMinutes)
  }

  lemma ReportFrame(r: Report, options: BusinessFrame.Options)
    requires Reportable(r)
    ensures
      var frame := BusinessFrame.Encode(r.data, r.businessSerial, r.additional, options);
      frame.Ok? && |frame.value| <= 100
  {
    BusinessFrameLaws.DocumentedEncodes(BusinessFrame.Uplink, r.data, r.businessSerial, r.additional, options);
  }

  lemma ReportAccepted(r: Report, options: BusinessFrame.Options)
    requires Reportable(r)
    ensures Accepted(ReportMessage(r, options))
  {
    ReportFrame(r, options);
    hide BusinessFrame.Encode;
    Packet.EncodeAccepts(ReportMessage(r, options));
  }

  lemma ReportBody(r: Report, options: BusinessFrame.Options, theirs: BusinessFrame.Options, tzOffsetMinutes: int)
    requires Reportable(r)
    ensures
      match DecodePassthrough(BusinessFrame.Uplink, ReportMessage(r, options).body, theirs, tzOffsetMinutes)
      case Business(Decoded(f)) => FrameIs(f, r, tzOffsetMinutes)
      case _ => false
  {
    hide BusinessFrame.Encode, BusinessFrame.Decode, DecodeBusinessData;
    ReportFrame(r, options);
    var frame := BusinessFrame.Encode(r.data, r.businessSerial, r.additional, options).value;
    assert ([PASSTHROUGH_ELOCK] + frame)[1..] == frame;
    BusinessFrameLaws.BusinessFrameRoundTrip(BusinessFrame.Uplink, r.data, r.businessSerial, r.additional, options,
      tzOffsetMinutes);
    OptionsAreEvidence(BusinessFrame.Uplink, frame, options, theirs, tzOffsetMinutes);
  }

  lemma ReportIsHeard(r: Report, options: BusinessFrame.Options, item: Framing.Item, theirs: BusinessFrame.Options,
                      tzOffsetMinutes: int)
    requires Reportable(r) && Carries(item, ReportMessage(r, options))
    ensures ReportHeardAs(item, r, theirs, tzOffsetMinutes)
  {
    hide DecodePassthrough, Packet.Decode, FrameIs, BusinessFrame.Encode;
    ReportBody(r, options, theirs, tzOffsetMinutes);
  }

  function ReportMessages(reports: seq<Report>, options: BusinessFrame.Options): (m: seq<Packet.Message>)
    ensures |m| == |reports|
    ensures forall i :: 0 <= i < |m| ==> m[i] == ReportMessage(reports[i], options)
  {
    seq(|reports|, i requires 0 <= i < |reports| => ReportMessage(reports[i], options))
  }

  /** And back: any list of documented uplink data, legacy replies included, through any chunking, reaches the server
      with the same data, additional bytes and serial, except exactly that a misread tail takes 35 bytes for the
      data. */
  lemma ReportsDelivered(reports: seq<Report>, options: BusinessFrame.Options, chunks: seq<seq<byte>>,
                         theirs: BusinessFrame.Options, tzOffsetMinutes: int)
    requires forall i :: 0 <= i < |reports| ==> Reportable(reports[i])
    requires Framing.Join(chunks) == Wire(ReportMessages(reports, options))
    ensures
      var items := Framing.PushedAll(Framing.DEFAULT_MAX_FRAME_LENGTH, Framing.Fresh, chunks).items;
      |items| == |reports| && forall i :: 0 <= i < |reports| ==>
        ReportHeardAs(items[i], reports[i], theirs, tzOffsetMinutes)
  {
    hide Accepted, Carries, Reportable, Framing.PushedAll, ReportMessage, ReportHeardAs;
    var messages := ReportMessages(reports, options);
    forall i | 0 <= i < |messages| ensures Accepted(messages[i]) {
      ReportAccepted(reports[i], options);
    }
    MessagesDelivered(messages, chunks);
    var items := Framing.PushedAll(Framing.DEFAULT_MAX_FRAME_LENGTH, Framing.Fresh, chunks).items;
    forall i | 0 <= i < |reports| ensures ReportHeardAs(items[i], reports[i], theirs, tzOffsetMinutes) {
      ReportIsHeard(reports[i], options, items[i], theirs, tzOffsetMinutes);
    }
  }

  // ---------- operation replies ----------

  /** An operation reply as a lock sends it, with additional information of any documented size. */
  datatype LockReply = LockReply(code: byte, lockId: seq<byte>, gate: byte, bill: seq<byte>, voltage: byte,
                                 lockStatus: byte, motorStatus: byte, line: seq<byte>, identifier: seq<byte>,
                                 source: byte, time: seq<byte>, businessSerial: word, gps: seq<byte>,
                                 terminal: seq<byte>, jt808: word)

  predicate WellFormed(r: LockReply)
  {
    && |r.lockId| == 4 && |r.bill| == 8 && |r.line| == 2 && |r.identifier| == 8 && |r.time| == 6
    && |r.gps| in BusinessFrame.ExtraSizes(BusinessFrame.Uplink) && |r.terminal| == 6
  }

  function ReportOf(r: LockReply): Report
  {
    Report(OperationReplyBytes(r.code, r.lockId, r.gate, r.bill, r.voltage, r.lockStatus, r.motorStatus, r.line,
                               r.identifier, r.source, r.time), r.businessSerial, r.gps, r.terminal, r.jt808)
  }

  function ReportsOf(replies: seq<LockReply>): (reports: seq<Report>)
    ensures |reports| == |replies|
    ensures forall i :: 0 <= i < |reports| ==> reports[i] == ReportOf(replies[i])
  {
    seq(|replies|, i requires 0 <= i < |replies| => ReportOf(replies[i]))
  }

  /** The parts of an operation reply that correlation reads: serial, result code, LockID, whether it is for the
      platform. */
  datatype ReplyParts = ReplyParts(serial: word, code: byte, lockId: Option<string>, fromPlatform: bool)

  function HearReply(item: Framing.Item, options: BusinessFrame.Options, tzOffsetMinutes: int): Option<ReplyParts>
  {
    match HearReport(item, options, tzOffsetMinutes)
    case None => None
    case Some(f) =>
      if f.payload.Reply? then
        var reply := f.payload.reply;
        Some(ReplyParts(f.serial, reply.resultCode, reply.lockId, reply.source == Platform))
      else None
  }

  lemma ReplyIsReportable(r: LockReply)
    requires WellFormed(r)
    ensures Reportable(ReportOf(r)) && !Misread(ReportOf(r))
  {
    var d := ReportOf(r).data;
    assert |d| == OPERATION_REPLY_LENGTH && d[0] == OPERATION_REPLY;
  }

  lemma ReplyDecodes(r: LockReply, tzOffsetMinutes: int)
    requires WellFormed(r)
    ensures
      match DecodeBusinessData(ReportOf(r).data, tzOffsetMinutes)
      case Reply(reply) => reply.resultCode == r.code && reply.lockId == DecodeLockId(r.lockId)
        && reply.source == SourceOf(r.source)
      case _ => false
  {
    OperationReplyRoundTrip(r.code, r.lockId, r.gate, r.bill, r.voltage, r.lockStatus, r.motorStatus, r.line,
      r.identifier, r.source, r.time, tzOffsetMinutes);
    hide OperationReplyBytes, DecodeOperationReply;
  }

  /** The item gives the server the serial, result code, LockID and source of the reply. */
  predicate ReplyHeardAs(item: Framing.Item, r: LockReply, options: BusinessFrame.Options, tzOffsetMinutes: int)
  {
    |r.lockId| == 4
    && HearReply(item, options, tzOffsetMinutes)
        == Some(ReplyParts(r.businessSerial, r.code, DecodeLockId(r.lockId), SourceOf(r.source) == Platform))
  }

  lemma ReplyIsHeard(r: LockReply, item: Framing.Item, theirs: BusinessFrame.Options, tzOffsetMinutes: int)
    requires WellFormed(r) && ReportHeardAs(item, ReportOf(r), theirs, tzOffsetMinutes)
    ensures ReplyHeardAs(item, r, theirs, tzOffsetMinutes)
  {
    hide HearReport, DecodeBusinessData, SourceOf, DecodeLockId, OperationReplyBytes, Misread;
    ReplyIsReportable(r);
    ReplyDecodes(r, tzOffsetMinutes);
  }

  /** Through any chunking the server reads the serial, result code, LockID and source of every operation reply. */
  lemma RepliesDelivered(replies: seq<LockReply>, options: BusinessFrame.Options, chunks: seq<seq<byte>>,
                         theirs: BusinessFrame.Options, tzOffsetMinutes: int)
    requires forall i :: 0 <= i < |replies| ==> WellFormed(replies[i])
    requires Framing.Join(chunks) == Wire(ReportMessages(ReportsOf(replies), options))
    ensures
      var items := Framing.PushedAll(Framing.DEFAULT_MAX_FRAME_LENGTH, Framing.Fresh, chunks).items;
      |items| == |replies| && forall i :: 0 <= i < |replies| ==>
        ReplyHeardAs(items[i], replies[i], theirs, tzOffsetMinutes)
  {
    hide WellFormed, Reportable, Framing.PushedAll, ReportHeardAs, ReplyHeardAs, ReportOf;
    var reports := ReportsOf(replies);
    forall i | 0 <= i < |reports| ensures Reportable(reports[i]) {
      ReplyIsReportable(replies[i]);
    }
    ReportsDelivered(reports, options, chunks, theirs, tzOffsetMinutes);
    var items := Framing.PushedAll(Framing.DEFAULT_MAX_FRAME_LENGTH, Framing.Fresh, chunks).items;
    forall i | 0 <= i < |replies| ensures ReplyHeardAs(items[i], replies[i], theirs, tzOffsetMinutes) {
      ReplyIsHeard(replies[i], items[i], theirs, tzOffsetMinutes);
    }
  }
}
