/** JT/T 808-2013 packets: server/src/protocol/header.js (section 4.4.3) and packet.js (section 4.4). */
module Packet {
  import opened Bytes
  import opened Escape
  import Crc

  const HEADER_LENGTH: nat := 12
  const PACKAGE_ITEM_LENGTH: nat := 4
  const MAX_BODY_LENGTH: nat := 0x3ff

  // ---------- body properties ----------

  datatype Properties = Properties(bodyLength: nat, encryption: nat, subpackage: bool, reserved: nat)

  /** Bits 0-9 body length, 10-12 encryption, 13 sub-packet, 14-15 reserved. */
  function DecodeProperties(props: word): Properties
  {
    Properties(props % 0x400, props / 0x400 % 8, props / 0x2000 % 2 == 1, props / 0x4000)
  }

  function EncodeProperties(bodyLength: nat, encryption: int, subpackage: bool, reserved: int): (r: Result<word>)
  {
    if bodyLength > MAX_BODY_LENGTH then Err("BODY_TOO_LONG")
    else Ok(bodyLength + 0x400 * (encryption % 8) + (if subpackage then 0x2000 else 0) + 0x4000 * (reserved % 4))
  }

  lemma PropertiesReencode(props: word)
    ensures
      var p := DecodeProperties(props);
      EncodeProperties(p.bodyLength, p.encryption, p.subpackage, p.reserved) == Ok(props)
  {
    var q := props / 0x400;
    assert props == 0x400 * q + props % 0x400;
    assert props / 0x2000 == q / 8 && props / 0x4000 == q / 16;
    assert q == 8 * (q / 8) + q % 8 && q / 8 == 2 * (q / 16) + q / 8 % 2;
  }

  lemma PropertiesDecode(bodyLength: nat, encryption: nat, subpackage: bool, reserved: nat)
    requires bodyLength <= MAX_BODY_LENGTH && encryption < 8 && reserved < 4
    ensures DecodeProperties(EncodeProperties(bodyLength, encryption, subpackage, reserved).value)
         == Properties(bodyLength, encryption, subpackage, reserved)
  {
    var w := EncodeProperties(bodyLength, encryption, subpackage, reserved).value;
    var bit := if subpackage then 1 else 0;
    assert w == 0x400 * (encryption + 8 * (bit + 2 * reserved)) + bodyLength;
    assert w / 0x400 == encryption + 8 * (bit + 2 * reserved);
    assert w / 0x2000 == bit + 2 * reserved;
  }

  /** The packing is a bijection between words and fields in range, and refuses nothing but long bodies. */
  lemma PropertiesRoundTrip(props: word, bodyLength: nat, encryption: int, subpackage: bool, reserved: int)
    ensures
      var p := DecodeProperties(props);
      EncodeProperties(p.bodyLength, p.encryption, p.subpackage, p.reserved) == Ok(props)
    ensures
      match EncodeProperties(bodyLength, encryption, subpackage, reserved)
      case Ok(w) => bodyLength <= MAX_BODY_LENGTH
        && DecodeProperties(w) == Properties(bodyLength, encryption % 8, subpackage, reserved % 4)
      case Err(_) => bodyLength > MAX_BODY_LENGTH
  {
    PropertiesReencode(props);
    if bodyLength <= MAX_BODY_LENGTH {
      var e, r := encryption % 8, reserved % 4;
      assert e % 8 == e && r % 4 == r;
      assert EncodeProperties(bodyLength, encryption, subpackage, reserved)
        == EncodeProperties(bodyLength, e, subpackage, r);
      hide DecodeProperties;
      PropertiesDecode(bodyLength, e, subpackage, r);
    }
  }

  // ---------- header ----------

  datatype Package = Package(total: int, index: int)

  /** The caller's terminal ID: the six bytes as received, or a string of decimal digits. */
  datatype TerminalId = RawId(bytes: seq<byte>) | DigitId(digits: string)

  datatype Header = Header(msgId: word, properties: Properties, terminal: seq<byte>, serial: word,
                           package: Option<Package>, length: nat)

  function EncodeTerminalId(id: TerminalId): (r: Result<seq<byte>>)
    ensures r.Ok? ==> |r.value| == 6
  {
    match id
    case RawId(bytes) => if |bytes| != 6 then Err("BAD_TERMINAL_ID") else Ok(bytes)
    case DigitId(digits) => BcdBytes(digits, 6)
  }

  predicate IsWord(n: int)
  {
    0 <= n < 0x1_0000
  }

  /** Everything encodePacket is asked to send. */
  datatype Message = Message(msgId: int, terminal: TerminalId, serial: int, body: seq<byte>,
                             encryption: int, package: Option<Package>)

  function PackageBytes(package: Option<Package>): seq<byte>
    requires package.Some? ==> IsWord(package.value.total) && IsWord(package.value.index)
  {
    match package
    case None => []
    case Some(p) => WordBytes(p.total) + WordBytes(p.index)
  }

  function EncodeHeader(m: Message): (r: Result<seq<byte>>)
    ensures r.Ok? ==> |r.value| == HEADER_LENGTH + if m.package.Some? then PACKAGE_ITEM_LENGTH else 0
  {
    if !IsWord(m.msgId) then Err("ERR_OUT_OF_RANGE") else
    match EncodeProperties(|m.body|, m.encryption, m.package.Some?, 0)
    case Err(code) => Err(code)
    case Ok(props) =>
      match EncodeTerminalId(m.terminal)
      case Err(code) => Err(code)
      case Ok(terminal) =>
        if m.package.Some? && !(IsWord(m.package.value.total) && IsWord(m.package.value.index))
        then Err("ERR_OUT_OF_RANGE")
        else Ok(WordBytes(m.msgId) + WordBytes(props) + terminal + WordBytes(m.serial % 0x1_0000)
          + PackageBytes(m.package))
  }

  function DecodeHeader(buf: seq<byte>): (r: Result<Header>)
    ensures r.Ok? ==> HEADER_LENGTH <= r.value.length <= |buf|
  {
    if |buf| < HEADER_LENGTH then Err("SHORT_HEADER") else
    var properties := DecodeProperties(ReadWord(buf, 2));
    if properties.subpackage && |buf| < HEADER_LENGTH + PACKAGE_ITEM_LENGTH then Err("SHORT_HEADER") else
    var package := if properties.subpackage then Some(Package(ReadWord(buf, 12), ReadWord(buf, 14))) else None;
    Ok(Header(ReadWord(buf, 0), properties, buf[4..10], ReadWord(buf, 10), package,
              if properties.subpackage then HEADER_LENGTH + PACKAGE_ITEM_LENGTH else HEADER_LENGTH))
  }

  // ---------- packet ----------

  datatype Encoded = Encoded(frame: seq<byte>, unescaped: seq<byte>, checksum: byte)

  function Content(m: Message): Result<seq<byte>>
  {
    match EncodeHeader(m)
    case Err(code) => Err(code)
    case Ok(header) => Ok(header + m.body)
  }

  function Enclose(content: seq<byte>): Encoded
  {
    var checksum := Crc.XorOf(content);
    Encoded([FLAG] + Escaped(content + [checksum]) + [FLAG], content + [checksum], checksum)
  }

  function Encode(m: Message): Result<Encoded>
  {
    match Content(m)
    case Err(code) => Err(code)
    case Ok(content) => Ok(Enclose(content))
  }

  /** encodePacket: build, checksum, escape, frame. */
  method EncodePacket(m: Message) returns (r: Result<Encoded>)
    ensures r == Encode(m)
  {
    var header := EncodeHeader(m);
    match header {
      case Err(code) => return Err(code);
      case Ok(bytes) =>
        var content := bytes + m.body;
        var checksum := Crc.XorChecksum(content, 0, |content|);
        assert content[0..|content|] == content;
        var unescaped := content + [checksum];
        var escaped := EscapeBuffer(unescaped);
        return Ok(Encoded([FLAG] + escaped[..] + [FLAG], unescaped, checksum));
    }
  }

  datatype Checksum = Checksum(received: byte, calculated: byte)

  datatype Warning = BodyLengthMismatch(declared: nat, actual: nat) | EncryptedBody(encryption: nat)

  datatype Decoded = Decoded(ok: bool, errorCode: string, checksum: Option<Checksum>, header: Option<Header>,
                             body: seq<byte>, warnings: seq<Warning>)

  function Refused(code: string): Decoded
  {
    Decoded(false, code, None, None, [], [])
  }

  function StripDelimiters(input: seq<byte>): seq<byte>
  {
    if |input| >= 2 && input[0] == FLAG && input[|input| - 1] == FLAG then input[1..|input| - 1] else input
  }

  function Warnings(header: Header, body: seq<byte>): seq<Warning>
  {
    (if |body| != header.properties.bodyLength then [BodyLengthMismatch(header.properties.bodyLength, |body|)] else [])
    + (if header.properties.encryption != 0 then [EncryptedBody(header.properties.encryption)] else [])
  }

  function DecodeContent(data: seq<byte>): Decoded
  {
    if |data| < HEADER_LENGTH + 1 then Refused("TOO_SHORT") else
    var last := |data| - 1;
    var checksum := Checksum(data[last], Crc.XorOf(data[..last]));
    match DecodeHeader(data[..last])
    case Err(code) => Refused(code).(checksum := Some(checksum))
    case Ok(header) =>
      if checksum.received != checksum.calculated then
        Decoded(false, "BAD_CHECKSUM", Some(checksum), Some(header), [], [])
      else
        var body := data[header.length..last];
        Decoded(true, "", Some(checksum), Some(header), body, Warnings(header, body))
  }

  function Decode(input: seq<byte>): Decoded
  {
    var u := UnescapeFrom(StripDelimiters(input), 0);
    if u.errors != [] then Refused("BAD_ESCAPE") else DecodeContent(u.data)
  }

  /** decodePacket: never refuses by failing, always by a result that says why. */
  method DecodePacket(input: seq<byte>) returns (result: Decoded)
    ensures result == Decode(input)
  {
    var inner := input;
    if |inner| >= 2 && inner[0] == FLAG && inner[|inner| - 1] == FLAG {
      inner := inner[1..|inner| - 1];
    }
    assert inner == StripDelimiters(input);
    var u := Unescape(inner);
    if |u.errors| > 0 {
      return Refused("BAD_ESCAPE");
    }
    result := ParseContent(u.data);
  }

  /** The part of decodePacket after unescaping. */
  method ParseContent(data: seq<byte>) returns (result: Decoded)
    ensures result == DecodeContent(data)
  {
    result := Refused("");
    if |data| < HEADER_LENGTH + 1 {
      return result.(errorCode := "TOO_SHORT");
    }
    var last := |data| - 1;
    var received := data[last];
    var calculated := Crc.XorChecksum(data, 0, last);
    assert data[0..last] == data[..last];
    result := result.(checksum := Some(Checksum(received, calculated)));
    var decoded := DecodeHeader(data[..last]);
    if decoded.Err? {
      return result.(errorCode := decoded.code);
    }
    var header := decoded.value;
    result := result.(header := Some(header));
    if received != calculated {
      return result.(errorCode := "BAD_CHECKSUM");
    }
    var body := data[header.length..last];
    var warnings: seq<Warning> := [];
    if |body| != header.properties.bodyLength {
      warnings := warnings + [BodyLengthMismatch(header.properties.bodyLength, |body|)];
    }
    if header.properties.encryption != 0 {
      warnings := warnings + [EncryptedBody(header.properties.encryption)];
    }
    assert warnings == Warnings(header, body);
    return result.(body := body, ok := true, warnings := warnings);
  }

  // ---------- round trips ----------

  /** The header a receiver should report for m. */
  function HeaderOf(m: Message): Header
    requires IsWord(m.msgId) && EncodeTerminalId(m.terminal).Ok?
  {
    Header(m.msgId, Properties(|m.body|, m.encryption % 8, m.package.Some?, 0), EncodeTerminalId(m.terminal).value,
           m.serial % 0x1_0000, m.package, HEADER_LENGTH + if m.package.Some? then PACKAGE_ITEM_LENGTH else 0)
  }

  lemma SlicesOfFive(a: seq<byte>, b: seq<byte>, c: seq<byte>, d: seq<byte>, rest: seq<byte>)
    requires |a| == 2 && |b| == 2 && |c| == 6 && |d| == 2
    ensures
      var s := a + b + c + d + rest;
      s[0..2] == a && s[2..4] == b && s[4..10] == c && s[10..12] == d && s[12..] == rest
  {
  }

  lemma ReadWordOf(s: seq<byte>, i: nat, w: word)
    requires i + 2 <= |s| && s[i..i + 2] == WordBytes(w)
    ensures ReadWord(s, i) == w
  {
    WordRoundTrip(w, WordBytes(w));
    assert s[i] == s[i..i + 2][0] && s[i + 1] == s[i..i + 2][1];
  }

  lemma HeaderRoundTrip(m: Message, rest: seq<byte>)
    requires EncodeHeader(m).Ok?
    ensures DecodeHeader(EncodeHeader(m).value + rest) == Ok(HeaderOf(m))
  {
    var props := EncodeProperties(|m.body|, m.encryption, m.package.Some?, 0).value;
    var terminal := EncodeTerminalId(m.terminal).value;
    var tail := PackageBytes(m.package) + rest;
    var s := EncodeHeader(m).value + rest;
    assert s == WordBytes(m.msgId) + WordBytes(props) + terminal + WordBytes(m.serial % 0x1_0000) + tail;
    SlicesOfFive(WordBytes(m.msgId), WordBytes(props), terminal, WordBytes(m.serial % 0x1_0000), tail);
    ReadWordOf(s, 0, m.msgId);
    ReadWordOf(s, 2, props);
    ReadWordOf(s, 10, m.serial % 0x1_0000);
    PropertiesRoundTrip(props, |m.body|, m.encryption, m.package.Some?, 0);
    if m.package.Some? {
      assert s[12..14] == s[12..][..2] && s[14..16] == s[12..][2..4];
      ReadWordOf(s, 12, m.package.value.total);
      ReadWordOf(s, 14, m.package.value.index);
    }
  }

  lemma FrameUnescapes(content: seq<byte>)
    ensures
      var e := Enclose(content);
      && StripDelimiters(e.frame) == Escaped(e.unescaped)
      && StripDelimiters(Escaped(e.unescaped)) == Escaped(e.unescaped)
      && UnescapeFrom(Escaped(e.unescaped), 0) == Unescaped(e.unescaped, [])
  {
    var e := Enclose(content);
    EscapedHasNoFlag(e.unescaped);
    UnescapeUndoesEscape(e.unescaped, 0);
    assert e.frame[1..|e.frame| - 1] == Escaped(e.unescaped);
  }

  /** Every accepted message decodes to the same fields, with or without its delimiters, and the only warning
      there can be is the one about the encryption flag. */
  lemma PacketRoundTrip(m: Message)
    requires Encode(m).Ok?
    ensures
      var e := Encode(m).value;
      var d := Decode(e.frame);
      && Decode(Escaped(e.unescaped)) == d
      && d.ok && d.header == Some(HeaderOf(m)) && d.body == m.body
      && d.checksum == Some(Checksum(e.checksum, e.checksum))
      && d.warnings == if m.encryption % 8 == 0 then [] else [EncryptedBody(m.encryption % 8)]
  {
    var header := EncodeHeader(m).value;
    var content := header + m.body;
    var e := Enclose(content);
    FrameUnescapes(content);
    HeaderRoundTrip(m, m.body);
    var data := e.unescaped;
    assert data[..|data| - 1] == content;
    assert data[|header|..|data| - 1] == m.body;
  }

  /** The message a decoded packet stands for. */
  function MessageOf(d: Decoded): Message
    requires d.header.Some?
  {
    var h := d.header.value;
    Message(h.msgId, RawId(h.terminal), h.serial, d.body, h.properties.encryption, h.package)
  }

  lemma HeaderReencodes(buf: seq<byte>, body: seq<byte>)
    requires DecodeHeader(buf).Ok?
    requires
      var h := DecodeHeader(buf).value;
      && body == buf[h.length..] && h.properties.reserved == 0 && h.properties.bodyLength == |body|
    ensures
      var h := DecodeHeader(buf).value;
      EncodeHeader(Message(h.msgId, RawId(h.terminal), h.serial, body, h.properties.encryption, h.package))
        == Ok(buf[..h.length])
  {
    var h := DecodeHeader(buf).value;
    PropertiesRoundTrip(ReadWord(buf, 2), 0, 0, false, 0);
    WordRoundTrip(0, buf[0..2]);
    WordRoundTrip(0, buf[2..4]);
    WordRoundTrip(0, buf[10..12]);
    assert buf[..12] == buf[0..2] + buf[2..4] + buf[4..10] + buf[10..12];
    if h.package.Some? {
      WordRoundTrip(0, buf[12..14]);
      WordRoundTrip(0, buf[14..16]);
      assert buf[..16] == buf[..12] + (buf[12..14] + buf[14..16]);
    } else {
      assert buf[..12] + [] == buf[..12];
    }
  }

  lemma DecodedParts(data: seq<byte>)
    requires DecodeContent(data).ok && DecodeContent(data).warnings == []
    ensures
      var content := data[..|data| - 1];
      && DecodeHeader(content).Ok? && DecodeContent(data).header == Some(DecodeHeader(content).value)
      && DecodeContent(data).body == content[DecodeHeader(content).value.length..]
      && DecodeHeader(content).value.properties.bodyLength == |DecodeContent(data).body|
      && data == content + [Crc.XorOf(content)]
  {
    hide DecodeHeader, Crc.XorOf;
  }

  lemma ContentReencodes(data: seq<byte>)
    requires
      var d := DecodeContent(data);
      d.ok && d.warnings == [] && d.header.value.properties.reserved == 0
    ensures
      match Encode(MessageOf(DecodeContent(data)))
      case Err(_) => false
      case Ok(e) => e.unescaped == data && e.frame == [FLAG] + Escaped(data) + [FLAG]
  {
    hide DecodeContent, DecodeHeader, EncodeHeader, Crc.XorOf, Escaped;
    DecodedParts(data);
    var content := data[..|data| - 1];
    var d, h := DecodeContent(data), DecodeHeader(content).value;
    HeaderReencodes(content, d.body);
    assert content[..h.length] + d.body == content;
  }

  /** A packet that decodes without a warning and with zero reserved bits re-encodes to the identical frame. */
  lemma PacketReencodes(input: seq<byte>)
    requires
      var d := Decode(input);
      d.ok && d.warnings == [] && d.header.value.properties.reserved == 0
    ensures
      match Encode(MessageOf(Decode(input)))
      case Err(_) => false
      case Ok(e) => e.frame == [FLAG] + StripDelimiters(input) + [FLAG]
  {
    var inner := StripDelimiters(input);
    EscapeUndoesUnescape(inner, 0);
    ContentReencodes(UnescapeFrom(inner, 0).data);
  }

  lemma WrongCheckByteRefused(data: seq<byte>)
    requires data != [] && data[|data| - 1] != Crc.XorOf(data[..|data| - 1])
    ensures !DecodeContent(data).ok
  {
  }

  lemma ChangedCheckByte(content: seq<byte>, i: nat, b: byte)
    requires i <= |content|
    requires var u := content + [Crc.XorOf(content)]; u[i] != b
    ensures var changed := (content + [Crc.XorOf(content)])[i := b];
            changed[|content|] != Crc.XorOf(changed[..|content|])
  {
    var u := content + [Crc.XorOf(content)];
    if i < |content| {
      assert u[i := b][..|content|] == content[i := b];
      Crc.SingleByteChangeDetected(Crc.XorAll, content, i, b);
    } else {
      assert u[i := b][..|content|] == content;
    }
  }

  lemma ContentOfDecoded(data: seq<byte>)
    requires DecodeContent(data).ok
    ensures data != [] && data == data[..|data| - 1] + [Crc.XorOf(data[..|data| - 1])]
  {
    hide DecodeHeader, Crc.XorOf;
  }

  /** Changing any single byte of any unescaped packet that decodes, header, body or check byte, makes it refused. */
  lemma SingleByteChangeRefused(data: seq<byte>, i: nat, b: byte)
    requires DecodeContent(data).ok && i < |data| && data[i] != b
    ensures !Decode(Escaped(data[i := b])).ok && !Decode([FLAG] + Escaped(data[i := b]) + [FLAG]).ok
  {
    var changed := data[i := b];
    ContentOfDecoded(data);
    ChangedCheckByte(data[..|data| - 1], i, b);
    hide Crc.XorOf, DecodeContent, Escaped, UnescapeFrom;
    WrongCheckByteRefused(changed);
    EscapedHasNoFlag(changed);
    UnescapeUndoesEscape(changed, 0);
    var frame := [FLAG] + Escaped(changed) + [FLAG];
    assert frame[1..|frame| - 1] == Escaped(changed);
  }

  /** An encoded packet takes at most 2 x (16 + 1023 + 1) = 2080 bytes between its delimiters, and never none. */
  lemma EscapedPacketBound(m: Message)
    requires Encode(m).Ok?
    ensures
      var e := Encode(m).value;
      && HEADER_LENGTH < |Escaped(e.unescaped)| <= 2080
      && FLAG !in Escaped(e.unescaped)
      && e.frame == [FLAG] + Escaped(e.unescaped) + [FLAG]
  {
    EscapedLength(Encode(m).value.unescaped);
    EscapedHasNoFlag(Encode(m).value.unescaped);
  }

  /** encodePacket refuses exactly a field out of range, a body over 1023 bytes or a terminal ID it cannot pack. */
  lemma EncodeAccepts(m: Message)
    ensures Encode(m).Ok? <==>
      && IsWord(m.msgId) && |m.body| <= MAX_BODY_LENGTH
      && (m.package.Some? ==> IsWord(m.package.value.total) && IsWord(m.package.value.index))
      && match m.terminal {
           case RawId(bytes) => |bytes| == 6
           case DigitId(digits) => IsDigits(digits) && |digits| <= 12
         }
  {
  }
}
