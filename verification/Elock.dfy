/** Field encodings, codes and business data layouts of the TT electronic lock protocol
    (server/src/protocol/tt-elock.js, Appendices 0, 1 and 3 and section 10 of the protocol). */
module Elock {
  import opened Bytes
  import BcdTime

  // ---------- codes ----------

  datatype Command = Seal | Unseal | ClearAlarm | SetDynamicPassword | ModifyLocalPassword

  datatype Outcome = Success | NoChange | Failure | TimedOut | Unknown

  function CommandByte(c: Command): byte
  {
    match c
    case Seal => 0x32
    case Unseal => 0x38
    case ClearAlarm => 0x42
    case SetDynamicPassword => 0xa0
    case ModifyLocalPassword => 0xa2
  }

  /** COMMAND_TYPE_BY_CODE. */
  function CommandOf(code: byte): Option<Command>
  {
    if code == 0x32 then Some(Seal) else if code == 0x38 then Some(Unseal) else if code == 0x42 then Some(ClearAlarm)
    else if code == 0xa0 then Some(SetDynamicPassword) else if code == 0xa2 then Some(ModifyLocalPassword) else None
  }

  datatype ResultDef = ResultDef(command: Command, outcome: Outcome)

  /** RESULT_CODES (Appendix 1). */
  function ResultOf(code: byte): Option<ResultDef>
  {
    if code == 0x80 then Some(ResultDef(Seal, Success))
    else if code == 0x81 then Some(ResultDef(Seal, NoChange))
    else if 0x82 <= code <= 0x87 then Some(ResultDef(Seal, Failure))
    else if code == 0x89 then Some(ResultDef(Seal, TimedOut))
    else if code == 0x90 then Some(ResultDef(Unseal, Success))
    else if code == 0x91 || code == 0x97 then Some(ResultDef(Unseal, NoChange))
    else if 0x92 <= code <= 0x96 || code == 0x98 then Some(ResultDef(Unseal, Failure))
    else if code == 0x99 then Some(ResultDef(Unseal, TimedOut))
    else if code == 0x70 then Some(ResultDef(ClearAlarm, Success))
    else if code == 0x71 then Some(ResultDef(ClearAlarm, TimedOut))
    else if code == 0x72 then Some(ResultDef(ClearAlarm, NoChange))
    else if 0x73 <= code <= 0x75 then Some(ResultDef(ClearAlarm, Failure))
    else if code == 0xa1 then Some(ResultDef(SetDynamicPassword, Success))
    else if code == 0xa3 then Some(ResultDef(ModifyLocalPassword, Success))
    else None
  }

  function SuccessCode(c: Command): byte
  {
    match c
    case Seal => 0x80
    case Unseal => 0x90
    case ClearAlarm => 0x70
    case SetDynamicPassword => 0xa1
    case ModifyLocalPassword => 0xa3
  }

  /** Each command has exactly one success code, and no code is a success for two commands. */
  lemma OneSuccessCode(code: byte, c: Command)
    ensures ResultOf(code) == Some(ResultDef(c, Success)) <==> code == SuccessCode(c)
    ensures CommandOf(CommandByte(c)) == Some(c)
    ensures CommandOf(code) == Some(c) <==> code == CommandByte(c)
  {
  }

  // ---------- LockID ----------

  predicate IsLockId(s: string)
  {
    |s| == 8 && IsDigits(s)
  }

  function LockIdBytes(s: string): (r: Result<seq<byte>>)
    ensures r.Ok? <==> IsLockId(s)
    ensures r.Ok? ==> |r.value| == 4
  {
    if !IsLockId(s) then Err("BAD_LOCK_ID")
    else
      FourDigits(s[..4]);
      FourDigits(s[4..]);
      Ok(WordBytes(Value(s[..4])) + WordBytes(Value(s[4..])))
  }

  function DecodeLockId(b: seq<byte>): Option<string>
    requires |b| == 4
  {
    var hi, lo := ReadWord(b, 0), ReadWord(b, 2);
    if hi <= 9999 && lo <= 9999 then Some(PadStart(Decimal(hi), 4) + PadStart(Decimal(lo), 4)) else None
  }

  lemma PowersOfTen()
    ensures Pow10(4) == 10000 && Pow10(6) == 1000000
  {
    assert Pow10(2) == 100 && Pow10(3) == 1000 && Pow10(5) == 100000;
  }

  lemma FourDigits(s: string)
    requires |s| == 4 && IsDigits(s)
    ensures 0 <= Value(s) <= 9999
    ensures PadStart(Decimal(Value(s)), 4) == s
  {
    PowersOfTen();
    DigitsRoundTrip(s);
  }

  lemma FourDigitValue(n: nat)
    requires n <= 9999
    ensures
      var s := PadStart(Decimal(n), 4);
      |s| == 4 && IsDigits(s) && Value(s) == n
  {
    PowersOfTen();
    PadIsFixed(n, 4);
    ValueOfFixed(n, 4);
  }

  lemma ReadTwoWords(v: word, w: word)
    ensures
      var b := WordBytes(v) + WordBytes(w);
      ReadWord(b, 0) == v && ReadWord(b, 2) == w
  {
    WordRoundTrip(v, WordBytes(v));
    WordRoundTrip(w, WordBytes(w));
  }

  /** Every LockID survives encoding, and any four bytes that read as a LockID are the encoding of it. */
  lemma LockIdRoundTrip(s: string, b: seq<byte>)
    requires IsLockId(s) && |b| == 4
    ensures DecodeLockId(LockIdBytes(s).value) == Some(s)
    ensures DecodeLockId(b).Some? ==> LockIdBytes(DecodeLockId(b).value) == Ok(b)
  {
    FourDigits(s[..4]);
    FourDigits(s[4..]);
    ReadTwoWords(Value(s[..4]), Value(s[4..]));
    assert s == s[..4] + s[4..];
    if DecodeLockId(b).Some? {
      LockIdOfBytes(b);
    }
  }

  lemma LockIdOfBytes(b: seq<byte>)
    requires |b| == 4 && DecodeLockId(b).Some?
    ensures LockIdBytes(DecodeLockId(b).value) == Ok(b)
  {
    var hi, lo := ReadWord(b, 0), ReadWord(b, 2);
    FourDigitValue(hi);
    FourDigitValue(lo);
    var h, l := PadStart(Decimal(hi), 4), PadStart(Decimal(lo), 4);
    assert (h + l)[..4] == h && (h + l)[4..] == l;
    WordRoundTrip(0, b[0..2]);
    WordRoundTrip(0, b[2..4]);
    assert b == b[0..2] + b[2..4];
  }

  // ---------- key ----------

  datatype KeyFormat = Rf10 | Ascii6 | HexKey

  /** The characters fromHex drops: white space, colon, underscore, hyphen. */
  predicate IsSeparator(c: char)
  {
    c == ':' || c == '_' || c == '-' || 0x09 <= c as int <= 0x0d
      || c as int in {0x20, 0xa0, 0x1680, 0x2028, 0x2029, 0x202f, 0x205f, 0x3000, 0xfeff}
    || 0x2000 <= c as int <= 0x200a
  }

  predicate IsHexDigit(c: char)
  {
    IsDigit(c) || 'a' <= c <= 'f' || 'A' <= c <= 'F'
  }

  function HexValue(c: char): (n: int)
    requires IsHexDigit(c)
    ensures 0 <= n < 16
  {
    if IsDigit(c) then DigitValue(c) else if 'a' <= c <= 'f' then c as int - 'a' as int + 10
      else c as int - 'A' as int + 10
  }

  function Clean(s: string): string
  {
    if s == "" then "" else (if IsSeparator(s[0]) then "" else [s[0]]) + Clean(s[1..])
  }

  predicate IsHex(s: string)
  {
    forall i :: 0 <= i < |s| ==> IsHexDigit(s[i])
  }

  function PackHex(s: string): (b: seq<byte>)
    requires IsHex(s) && |s| % 2 == 0
    ensures |b| == |s| / 2
  {
    if s == "" then [] else [16 * HexValue(s[0]) + HexValue(s[1])] + PackHex(s[2..])
  }

  function FromHex(hex: string): Result<seq<byte>>
  {
    var clean := Clean(hex);
    if |clean| % 2 != 0 || !IsHex(clean) then Err("BAD_HEX") else Ok(PackHex(clean))
  }

  function AsciiBytes(s: string): (b: seq<byte>)
    requires IsDigits(s)
    ensures |b| == |s|
  {
    seq(|s|, i requires 0 <= i < |s| => s[i] as int)
  }

  function KeyBytes(key: string, format: KeyFormat): (r: Result<seq<byte>>)
    ensures r.Ok? ==> |r.value| == 6
  {
    match format
    case Rf10 =>
      if |key| != 10 || !IsDigits(key) then Err("BAD_KEY")
      else
        FourDigits(key[..4]);
        SixDigits(key[4..]);
        Ok(WordBytes(Value(key[..4])) + DwordBytes(Value(key[4..])))
    case Ascii6 => if |key| != 6 || !IsDigits(key) then Err("BAD_KEY") else Ok(AsciiBytes(key))
    case HexKey =>
      match FromHex(key)
      case Err(code) => Err(code)
      case Ok(b) => if |b| != 6 then Err("BAD_KEY") else Ok(b)
  }

  lemma SixDigits(s: string)
    requires |s| == 6 && IsDigits(s)
    ensures 0 <= Value(s) <= 999999
    ensures PadStart(Decimal(Value(s)), 6) == s
  {
    PowersOfTen();
    DigitsRoundTrip(s);
  }

  function IsPrintable(b: seq<byte>): bool
  {
    forall i :: 0 <= i < |b| ==> 0x20 <= b[i] <= 0x7e
  }

  function AsciiText(b: seq<byte>): (s: string)
    requires IsPrintable(b)
    ensures |s| == |b|
  {
    seq(|b|, i requires 0 <= i < |b| => b[i] as char)
  }

  function DecodeKey(b: seq<byte>, format: KeyFormat): Option<string>
    requires |b| == 6
  {
    match format
    case Rf10 =>
      var hi, lo := ReadWord(b, 0), ReadDword(b, 2);
      if hi <= 9999 && lo <= 999999 then Some(PadStart(Decimal(hi), 4) + PadStart(Decimal(lo), 6)) else None
    case Ascii6 => if IsPrintable(b) then Some(AsciiText(b)) else None
    case HexKey => Some(HexText(b))
  }

  lemma Rf10RoundTrip(key: string)
    requires |key| == 10 && IsDigits(key)
    ensures DecodeKey(KeyBytes(key, Rf10).value, Rf10) == Some(key)
  {
    FourDigits(key[..4]);
    SixDigits(key[4..]);
    var v, w := Value(key[..4]), Value(key[4..]);
    WordRoundTrip(v, WordBytes(v));
    DwordRoundTrip(w);
    var b := WordBytes(v) + DwordBytes(w);
    assert b[0..2] == WordBytes(v) && b[2..6] == DwordBytes(w);
    assert ReadWord(b, 0) == v;
    assert ReadDword(b, 2) == ReadDword(DwordBytes(w), 0) by {
      assert b[2] == DwordBytes(w)[0] && b[3] == DwordBytes(w)[1] && b[4] == DwordBytes(w)[2]
        && b[5] == DwordBytes(w)[3];
    }
    assert key == key[..4] + key[4..];
  }

  lemma NibbleChars(n: nat)
    requires n < 16
    ensures IsHexDigit(NibbleChar(n)) && !IsSeparator(NibbleChar(n)) && HexValue(NibbleChar(n)) == n
  {
  }

  lemma CleanPair(c: char, d: char, t: string)
    requires !IsSeparator(c) && !IsSeparator(d)
    ensures Clean([c, d] + t) == [c, d] + Clean(t)
  {
    hide IsSeparator;
    assert ([c, d] + t)[1..] == [d] + t && ([d] + t)[1..] == t;
    assert Clean([d] + t) == [d] + Clean(t);
  }

  lemma {:induction false} HexTextPacks(b: seq<byte>)
    ensures IsHex(HexText(b)) && Clean(HexText(b)) == HexText(b) && PackHex(HexText(b)) == b
  {
    if b != [] {
      HexTextPacks(b[1..]);
      var s := HexText(b);
      var t := HexText(b[1..]);
      NibbleChars(b[0] / 16);
      NibbleChars(b[0] % 16);
      var c, d := NibbleChar(b[0] / 16), NibbleChar(b[0] % 16);
      assert s == [c, d] + t;
      hide NibbleChar, HexValue, IsHexDigit, IsSeparator;
      CleanPair(c, d, t);
      assert s[2..] == t;
      assert b == [b[0]] + b[1..];
    }
  }

  /** Every key the encoder accepts decodes to a text that encodes to the same six bytes; for the two digit formats
      that text is the key itself. */
  lemma KeyRoundTrip(key: string, format: KeyFormat)
    requires KeyBytes(key, format).Ok?
    ensures
      match DecodeKey(KeyBytes(key, format).value, format)
      case None => false
      case Some(text) => (format != HexKey ==> text == key) && KeyBytes(text, format) == KeyBytes(key, format)
  {
    var b := KeyBytes(key, format).value;
    match format
    case Rf10 => Rf10RoundTrip(key);
    case Ascii6 => assert AsciiText(b) == key;
    case HexKey => HexTextPacks(b);
  }

  // ---------- bill, line code ----------

  function BillBytes(bill: string): (r: Result<seq<byte>>)
    ensures r.Ok? ==> |r.value| == 8
  {
    if !(1 <= |bill| <= 16) || !IsHex(bill) then Err("BAD_BILL")
    else
      assert IsHex(PadStart(bill, 16));
      Ok(PackHex(PadStart(bill, 16)))
  }

  function LineCodeBytes(lineCode: int): (r: Result<seq<byte>>)
    ensures r.Ok? ==> |r.value| == 2
  {
    if !(0 <= lineCode < 0x1_0000) then Err("BAD_LINE_CODE") else Ok(WordBytes(lineCode))
  }

  // ---------- lock operation (section 10.2.1, downlink) ----------

  const LOCK_OPERATION: byte := 0x15
  const OPERATION_REPLY: byte := 0x55
  const LOCK_UPLOAD: byte := 0x01
  const LOCK_UPLOAD_REPLY: byte := 0x61

  const LOCK_OPERATION_LENGTH: nat := 34
  const OPERATION_REPLY_LENGTH: nat := 35
  const OPERATION_REPLY_LEGACY_LENGTH: nat := 25
  const LOCK_UPLOAD_LENGTH: nat := 21
  const LOCK_UPLOAD_REPLY_LENGTH: nat := 12

  /** What execute passes to encodeLockOperation. */
  datatype OperationParams = OperationParams(cmd: byte, lockId: string, gate: byte, bill: string, lineCode: int,
                                             key: string, keyFormat: KeyFormat, validTime: byte, ms: int,
                                             tzOffsetMinutes: int)

  const SPARE: seq<byte> := [0, 0, 0, 0]

  function LockOperationBytes(p: OperationParams): (r: Result<seq<byte>>)
    ensures r.Ok? ==> |r.value| == LOCK_OPERATION_LENGTH
  {
    match BcdTime.EncodeBcdTime(p.ms, p.tzOffsetMinutes)
    case Err(code) => Err(code)
    case Ok(time) =>
      match KeyBytes(p.key, p.keyFormat)
      case Err(code) => Err(code)
      case Ok(key) =>
        match LockIdBytes(p.lockId)
        case Err(code) => Err(code)
        case Ok(lockId) =>
          match BillBytes(p.bill)
          case Err(code) => Err(code)
          case Ok(bill) =>
            match LineCodeBytes(p.lineCode)
            case Err(code) => Err(code)
            case Ok(line) => Ok(OperationLayout(p.cmd, lockId, p.gate, bill, line, key, p.validTime, SPARE, time))
  }

  function OperationLayout(cmd: byte, lockId: seq<byte>, gate: byte, bill: seq<byte>, line: seq<byte>, key: seq<byte>,
                           validTime: byte, spare: seq<byte>, time: seq<byte>): seq<byte>
  {
    [LOCK_OPERATION, cmd] + lockId + [gate] + bill + line + key + [validTime] + spare + time
  }

  datatype LockOperation = LockOperation(cmd: byte, commandType: Option<Command>, lockId: Option<string>, gate: byte,
                                         bill: seq<byte>, lineCode: word, key: seq<byte>, validTime: byte,
                                         spare: seq<byte>, time: BcdTime.Decoded)

  function DecodeLockOperation(data: seq<byte>, tzOffsetMinutes: int): (r: Result<LockOperation>)
    ensures r.Ok? <==> |data| == LOCK_OPERATION_LENGTH
  {
    if |data| != LOCK_OPERATION_LENGTH then Err("length")
    else Ok(LockOperation(data[1], CommandOf(data[1]), DecodeLockId(data[2..6]), data[6], data[7..15],
      ReadWord(data, 15),
                          data[17..23], data[23], data[24..28], BcdTime.DecodeBcdTime(data[28..34], tzOffsetMinutes)))
  }

  lemma OperationSlices(cmd: byte, lockId: seq<byte>, gate: byte, bill: seq<byte>, line: seq<byte>, key: seq<byte>,
                        validTime: byte, spare: seq<byte>, time: seq<byte>)
    requires |lockId| == 4 && |bill| == 8 && |line| == 2 && |key| == 6 && |spare| == 4 && |time| == 6
    ensures
      var d := OperationLayout(cmd, lockId, gate, bill, line, key, validTime, spare, time);
      && |d| == LOCK_OPERATION_LENGTH
      && d[0] == LOCK_OPERATION && d[1] == cmd && d[2..6] == lockId && d[6] == gate && d[7..15] == bill
          && d[15..17] == line
      && d[17..23] == key && d[23] == validTime && d[24..28] == spare && d[28..34] == time
  {
  }

  /** A lock operation decodes to the command byte, LockID digits, key bytes, bill, line code and time it was built
      from. */
  lemma LockOperationRoundTrip(p: OperationParams)
    requires LockOperationBytes(p).Ok?
    ensures
      match DecodeLockOperation(LockOperationBytes(p).value, p.tzOffsetMinutes)
      case Err(_) => false
      case Ok(op) =>
        && op.cmd == p.cmd && op.commandType == CommandOf(p.cmd) && op.lockId == Some(p.lockId)
        && KeyBytes(p.key, p.keyFormat) == Ok(op.key) && op.gate == p.gate && BillBytes(p.bill) == Ok(op.bill)
        && op.lineCode == p.lineCode && op.validTime == p.validTime && op.spare == SPARE
        && (2000 <= BcdTime.LocalYear(p.ms, p.tzOffsetMinutes) <= 2099 ==>
            op.time == BcdTime.Instant(BcdTime.WholeSeconds(p.ms)))
  {
    hide BcdTime.EncodeBcdTime, BcdTime.DecodeBcdTime, BcdTime.LocalYear, KeyBytes, BillBytes, DecodeLockId,
      LockIdBytes;
    var time := BcdTime.EncodeBcdTime(p.ms, p.tzOffsetMinutes).value;
    var key := KeyBytes(p.key, p.keyFormat).value;
    var lockId := LockIdBytes(p.lockId).value;
    var bill := BillBytes(p.bill).value;
    OperationSlices(p.cmd, lockId, p.gate, bill, WordBytes(p.lineCode), key, p.validTime, SPARE, time);
    LockIdRoundTrip(p.lockId, lockId);
    var d := LockOperationBytes(p).value;
    WordRoundTrip(p.lineCode, d[15..17]);
    assert ReadWord(d, 15) == ReadWord(d[15..17], 0);
    BcdTime.TimeRoundTrip(p.ms, p.tzOffsetMinutes);
  }

  /** In the years the six-byte time can express, an operation is refused exactly for its LockID, key, bill or line
      code. */
  lemma LockOperationAccepts(p: OperationParams)
    requires 2000 <= BcdTime.LocalYear(p.ms, p.tzOffsetMinutes) <= 2099
    ensures LockOperationBytes(p).Ok? <==>
      IsLockId(p.lockId) && KeyBytes(p.key, p.keyFormat).Ok? && 1 <= |p.bill| <= 16 && IsHex(p.bill)
        && 0 <= p.lineCode < 0x1_0000
  {
    hide BcdTime.EncodeBcdTime, BcdTime.DecodeBcdTime, BcdTime.LocalYear, KeyBytes;
    BcdTime.TimeRoundTrip(p.ms, p.tzOffsetMinutes);
  }

  // ---------- operation reply (section 10.2.1, uplink) ----------

  datatype CommandSource = Sms | Automatic | Keypad | Handheld | Platform | Checkpoint | IcCard | Other | UnknownSource

  function SourceOf(code: byte): CommandSource
  {
    if code == 0 then Sms else if code == 1 then Automatic else if code == 2 then Keypad else if code == 3 then Handheld
    else if code == 4 then Platform else if code == 5 then Checkpoint else if code == 6 then IcCard
    else if code <= 0x0f then Other else UnknownSource
  }

  datatype OperationReply = OperationReply(legacy: bool, resultCode: byte, lockId: Option<string>, gate: byte,
                                           bill: seq<byte>, voltage: byte, lockStatus: byte, motorStatus: byte,
                                           lineCode: Option<word>, identifier: seq<byte>, source: CommandSource,
                                           time: BcdTime.Decoded)

  function DecodeOperationReply(data: seq<byte>, tzOffsetMinutes: int): (r: Result<OperationReply>)
    ensures r.Ok? <==> |data| == OPERATION_REPLY_LENGTH || |data| == OPERATION_REPLY_LEGACY_LENGTH
  {
    if |data| == OPERATION_REPLY_LEGACY_LENGTH then
      Ok(OperationReply(true, data[1], DecodeLockId(data[2..6]), data[6], data[7..15], data[15], data[16], data[17],
                        None, [], SourceOf(data[18]), BcdTime.DecodeBcdTime(data[19..25], tzOffsetMinutes)))
    else if |data| == OPERATION_REPLY_LENGTH then
      Ok(OperationReply(false, data[1], DecodeLockId(data[2..6]), data[6], data[7..15], data[15], data[16], data[17],
                        Some(ReadWord(data, 18)), data[20..28], SourceOf(data[28]),
                        BcdTime.DecodeBcdTime(data[29..35], tzOffsetMinutes)))
    else Err("length")
  }

  /** encodeOperationReply with every field given as bytes, as the simulated lock calls it. */
  function OperationReplyBytes(resultCode: byte, lockId: seq<byte>, gate: byte, bill: seq<byte>, voltage: byte,
                               lockStatus: byte, motorStatus: byte, line: seq<byte>, identifier: seq<byte>,
                               source: byte, time: seq<byte>): seq<byte>
  {
    [OPERATION_REPLY, resultCode] + lockId + [gate] + bill + [voltage, lockStatus, motorStatus] + line + identifier
    + [source] + time
  }

  lemma OperationReplyRoundTrip(resultCode: byte, lockId: seq<byte>, gate: byte, bill: seq<byte>, voltage: byte,
                                lockStatus: byte, motorStatus: byte, line: seq<byte>, identifier: seq<byte>,
                                source: byte, time: seq<byte>, tzOffsetMinutes: int)
    requires |lockId| == 4 && |bill| == 8 && |line| == 2 && |identifier| == 8 && |time| == 6
    ensures
      var d := OperationReplyBytes(resultCode, lockId, gate, bill, voltage, lockStatus, motorStatus, line, identifier,
        source, time);
      && |d| == OPERATION_REPLY_LENGTH && d[0] == OPERATION_REPLY
      && DecodeOperationReply(d, tzOffsetMinutes)
         == Ok(OperationReply(false, resultCode, DecodeLockId(lockId), gate, bill, voltage, lockStatus, motorStatus,
                              Some(ReadWord(line, 0)), identifier, SourceOf(source),
                              BcdTime.DecodeBcdTime(time, tzOffsetMinutes)))
  {
    hide BcdTime.DecodeBcdTime, DecodeLockId;
    var d := OperationReplyBytes(resultCode, lockId, gate, bill, voltage, lockStatus, motorStatus, line, identifier,
      source, time);
    assert d[2..6] == lockId && d[7..15] == bill && d[20..28] == identifier && d[29..35] == time;
    assert d[18] == line[0] && d[19] == line[1];
  }

  // ---------- lock upload (section 10.3) ----------

  datatype UploadAlarm = KnobDamage | LockBodyDamage | LockRodCut | LockRodOpen

  /** The alarm sub-commands of LOCK_UPLOAD_SUBCMDS; 0x01 and 0xF2 are known but no alarms. */
  function UploadAlarmOf(subCmd: byte): Option<UploadAlarm>
  {
    if subCmd == 2 then Some(KnobDamage) else if subCmd == 3 then Some(LockBodyDamage)
    else if subCmd == 4 then Some(LockRodCut) else if subCmd == 5 then Some(LockRodOpen) else None
  }

  datatype LockUpload = LockUpload(subCmd: byte, alarm: Option<UploadAlarm>, lockId: Option<string>, gate: byte,
                                   voltage: byte, lockStatus: byte, motorStatus: byte, spare: seq<byte>, version: byte,
                                   time: BcdTime.Decoded)

  function DecodeLockUpload(data: seq<byte>, tzOffsetMinutes: int): Result<LockUpload>
  {
    if |data| != LOCK_UPLOAD_LENGTH then Err("length")
    else Ok(LockUpload(data[1], UploadAlarmOf(data[1]), DecodeLockId(data[2..6]), data[6], data[7], data[8], data[9],
                       data[10..14], data[14], BcdTime.DecodeBcdTime(data[15..21], tzOffsetMinutes)))
  }

  datatype LockUploadReply = LockUploadReply(subCmd: byte, lockId: Option<string>, time: BcdTime.Decoded)

  function DecodeLockUploadReply(data: seq<byte>, tzOffsetMinutes: int): Result<LockUploadReply>
  {
    if |data| != LOCK_UPLOAD_REPLY_LENGTH then Err("length")
    else Ok(LockUploadReply(data[1], DecodeLockId(data[2..6]), BcdTime.DecodeBcdTime(data[6..12], tzOffsetMinutes)))
  }

  datatype Payload = Operation(operation: LockOperation) | Reply(reply: OperationReply) | Upload(upload: LockUpload)
                   | UploadReply(uploadReply: LockUploadReply) | Undecoded(error: string)

  /** decodeBusinessData. */
  function DecodeBusinessData(data: seq<byte>, tzOffsetMinutes: int): Payload
  {
    if data == [] then Undecoded("Empty business data")
    else if data[0] == OPERATION_REPLY then
      match DecodeOperationReply(data, tzOffsetMinutes) case Ok(v) => Reply(v) case Err(e) => Undecoded(e)
    else if data[0] == LOCK_UPLOAD then
      match DecodeLockUpload(data, tzOffsetMinutes) case Ok(v) => Upload(v) case Err(e) => Undecoded(e)
    else if data[0] == LOCK_OPERATION then
      match DecodeLockOperation(data, tzOffsetMinutes) case Ok(v) => Operation(v) case Err(e) => Undecoded(e)
    else if data[0] == LOCK_UPLOAD_REPLY then
      match DecodeLockUploadReply(data, tzOffsetMinutes) case Ok(v) => UploadReply(v) case Err(e) => Undecoded(e)
    else Undecoded("Unsupported business operation")
  }
}
