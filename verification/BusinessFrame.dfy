/** The e-lock business envelope of server/src/protocol/tt-elock.js (section 10.1):
    LEN | 0x2A | data | 0x23 | [additional] | serial | CRC. The decoder does not trust LEN; it guesses the tail. */
module BusinessFrame {
  import opened Bytes
  import Crc
  import Elock

  const HEAD: byte := 0x2a
  const TAIL: byte := 0x23
  const LOCATION_BASIC_LENGTH: nat := 28

  datatype Direction = Uplink | Downlink
  datatype LenMode = AfterLen | AfterLenExclCrc | DocExample
  datatype CrcRange = FromLen | FromHead

  /** crcAlgo None is the configuration value 'none'. */
  datatype Options = Options(lenMode: LenMode, crcAlgo: Option<Crc.Algorithm>, crcRange: CrcRange)

  const LEN_MODES: seq<LenMode> := [AfterLen, AfterLenExclCrc, DocExample]

  function LenValue(mode: LenMode, dataLength: nat, coreLength: nat): nat
  {
    match mode
    case AfterLen => coreLength + 1
    case AfterLenExclCrc => coreLength
    case DocExample => dataLength + 2 + 1
  }

  function CrcInput(range: CrcRange, noCrc: seq<byte>): seq<byte>
    requires noCrc != []
  {
    match range
    case FromLen => noCrc
    case FromHead => noCrc[1..]
  }

  // ---------- encoding ----------

  function Core(data: seq<byte>, serial: int, additional: seq<byte>): seq<byte>
  {
    [HEAD] + data + [TAIL] + additional + WordBytes(serial % 0x1_0000)
  }

  function CrcByte(noCrc: seq<byte>, options: Options): byte
    requires noCrc != []
  {
    match options.crcAlgo
    case None => 0
    case Some(algorithm) => Crc.Check(algorithm, CrcInput(options.crcRange, noCrc))
  }

  /** encodeBusinessFrame. */
  function Encode(data: seq<byte>, serial: int, additional: seq<byte>, options: Options): Result<seq<byte>>
  {
    var core := Core(data, serial, additional);
    var len := LenValue(options.lenMode, |data|, |core|);
    if len > 0xff then Err("BIZ_TOO_LONG")
    else
      var noCrc := [len] + core;
      Ok(noCrc + [CrcByte(noCrc, options)])
  }

  // ---------- candidates for the tail ----------

  datatype Candidate = Candidate(idx: nat, knownLength: bool, extra: nat)

  /** KNOWN_DATA_LENGTHS; an operation code without an entry has none. */
  function KnownLengths(direction: Direction, op: byte): seq<nat>
  {
    match direction
    case Uplink =>
      if op == Elock.OPERATION_REPLY then [Elock.OPERATION_REPLY_LENGTH, Elock.OPERATION_REPLY_LEGACY_LENGTH]
      else if op == Elock.LOCK_UPLOAD then [Elock.LOCK_UPLOAD_LENGTH]
      else []
    case Downlink =>
      if op == Elock.LOCK_OPERATION then [Elock.LOCK_OPERATION_LENGTH]
      else if op == Elock.LOCK_UPLOAD_REPLY then [Elock.LOCK_UPLOAD_REPLY_LENGTH]
      else []
  }

  /** The sizes of additional information to try, in the order of the source. */
  function ExtraSizes(direction: Direction): seq<nat>
  {
    if direction == Uplink then [0, LOCATION_BASIC_LENGTH + 7, LOCATION_BASIC_LENGTH + 10, LOCATION_BASIC_LENGTH]
      else [0]
  }

  function ByLength(buf: seq<byte>, lengths: seq<nat>): seq<Candidate>
    requires |buf| >= 7
  {
    if lengths == [] then []
    else
      var idx, bodyEnd := 2 + lengths[0], |buf| - 3;
      (if idx < bodyEnd && buf[idx] == TAIL then [Candidate(idx, true, bodyEnd - idx - 1)] else [])
      + ByLength(buf, lengths[1..])
  }

  predicate HasIdx(candidates: seq<Candidate>, idx: int)
  {
    exists i :: 0 <= i < |candidates| && candidates[i].idx == idx
  }

  function WithExtras(buf: seq<byte>, sizes: seq<nat>, found: seq<Candidate>): seq<Candidate>
    requires |buf| >= 7
    decreases sizes
  {
    if sizes == [] then found
    else
      var idx := |buf| - 3 - sizes[0] - 1;
      WithExtras(buf, sizes[1..],
        if idx >= 3 && buf[idx] == TAIL && !HasIdx(found, idx) then found + [Candidate(idx, false, sizes[0])]
          else found)
  }

  function Candidates(direction: Direction, buf: seq<byte>): seq<Candidate>
    requires |buf| >= 7
  {
    WithExtras(buf, ExtraSizes(direction), ByLength(buf, KnownLengths(direction, buf[2])))
  }

  function Score(direction: Direction, c: Candidate): nat
  {
    (if c.knownLength then 2 else 0) + (if c.extra in ExtraSizes(direction) then 1 else 0)
  }

  /** Inserts c, which stood before all of `sorted`, behind the strictly better ones. */
  function Insert(direction: Direction, c: Candidate, sorted: seq<Candidate>): (r: seq<Candidate>)
    ensures |r| == |sorted| + 1
  {
    if sorted == [] || Score(direction, sorted[0]) <= Score(direction, c) then [c] + sorted
    else [sorted[0]] + Insert(direction, c, sorted[1..])
  }

  /** candidates.sort by falling score, which JavaScript guarantees to be stable. */
  function Sorted(direction: Direction, candidates: seq<Candidate>): (r: seq<Candidate>)
    ensures |r| == |candidates|
  {
    if candidates == [] then [] else Insert(direction, candidates[0], Sorted(direction, candidates[1..]))
  }

  predicate Falling(direction: Direction, s: seq<Candidate>)
  {
    forall i, j :: 0 <= i < j < |s| ==> Score(direction, s[i]) >= Score(direction, s[j])
  }

  /** The candidates of one score, in order. */
  function OfScore(direction: Direction, s: seq<Candidate>, n: nat): seq<Candidate>
  {
    if s == [] then [] else (if Score(direction, s[0]) == n then [s[0]] else []) + OfScore(direction, s[1..], n)
  }

  lemma {:induction false} InsertMembers(direction: Direction, c: Candidate, s: seq<Candidate>)
    ensures forall x :: x in Insert(direction, c, s) <==> x == c || x in s
  {
    if s != [] && Score(direction, s[0]) > Score(direction, c) {
      InsertMembers(direction, c, s[1..]);
      assert s == [s[0]] + s[1..];
    }
  }

  lemma {:induction false} InsertFalls(direction: Direction, c: Candidate, s: seq<Candidate>)
    requires Falling(direction, s)
    ensures Falling(direction, Insert(direction, c, s))
  {
    if s != [] && Score(direction, s[0]) > Score(direction, c) {
      var t := Insert(direction, c, s[1..]);
      InsertFalls(direction, c, s[1..]);
      InsertMembers(direction, c, s[1..]);
      forall j | 0 <= j < |t|
        ensures Score(direction, s[0]) >= Score(direction, t[j])
      {
        assert t[j] in t;
      }
    }
  }

  lemma OfScoreCons(direction: Direction, c: Candidate, s: seq<Candidate>, n: nat)
    ensures OfScore(direction, [c] + s, n) == (if Score(direction, c) == n then [c] else []) + OfScore(direction, s, n)
  {
    hide Score;
    assert ([c] + s)[1..] == s;
  }

  lemma {:induction false} InsertKeepsOrder(direction: Direction, c: Candidate, s: seq<Candidate>, n: nat)
    ensures OfScore(direction, Insert(direction, c, s), n) == OfScore(direction, [c] + s, n)
  {
    hide Score, OfScore;
    if s != [] && Score(direction, s[0]) > Score(direction, c) {
      var t := s[1..];
      assert s == [s[0]] + t;
      InsertKeepsOrder(direction, c, t, n);
      OfScoreCons(direction, s[0], Insert(direction, c, t), n);
      OfScoreCons(direction, s[0], t, n);
      OfScoreCons(direction, c, t, n);
      OfScoreCons(direction, c, s, n);
    }
  }

  /** The sort orders by falling score and keeps the order among equal scores. */
  lemma {:induction false} SortIsStable(direction: Direction, candidates: seq<Candidate>, n: nat)
    ensures Falling(direction, Sorted(direction, candidates))
    ensures OfScore(direction, Sorted(direction, candidates), n) == OfScore(direction, candidates, n)
    ensures forall x :: x in Sorted(direction, candidates) <==> x in candidates
  {
    if candidates != [] {
      var rest := candidates[1..];
      SortIsStable(direction, rest, n);
      InsertMembers(direction, candidates[0], Sorted(direction, rest));
      InsertFalls(direction, candidates[0], Sorted(direction, rest));
      InsertKeepsOrder(direction, candidates[0], Sorted(direction, rest), n);
      assert candidates == [candidates[0]] + rest;
      assert ([candidates[0]] + Sorted(direction, rest))[1..] == Sorted(direction, rest);
    }
  }

  // ---------- decoding ----------

  datatype Error = TooShort | NoHead(found: byte) | NoTail

  datatype Warning = UndocumentedLength(length: nat) | UnexpectedExtra(size: nat) | LenMatchesNothing | CrcMismatch
    | PayloadError(error: string)

  datatype Frame = Frame(lenByte: byte, serial: word, crcReceived: byte, data: seq<byte>, additional: seq<byte>,
                         lenInterpretations: seq<LenMode>, crcMatches: seq<(Crc.Algorithm, CrcRange)>,
                         crcValid: Option<bool>, payload: Elock.Payload, warnings: seq<Warning>)

  datatype Decoded = Decoded(frame: Frame) | Refused(error: Error)

  function Interpretations(modes: seq<LenMode>, lenByte: byte, dataLength: nat, coreLength: nat): seq<LenMode>
  {
    if modes == [] then []
    else (if LenValue(modes[0], dataLength, coreLength) == lenByte then [modes[0]] else [])
         + Interpretations(modes[1..], lenByte, dataLength, coreLength)
  }

  const CRC_CANDIDATES: seq<(Crc.Algorithm, CrcRange)> :=
    [(Crc.Crc8Maxim, FromLen), (Crc.Crc8Maxim, FromHead), (Crc.XorAll, FromLen), (Crc.XorAll, FromHead),
     (Crc.SumAll, FromLen), (Crc.SumAll, FromHead)]

  function Matching(pairs: seq<(Crc.Algorithm, CrcRange)>, noCrc: seq<byte>, received: byte)
    : seq<(Crc.Algorithm, CrcRange)>
    requires noCrc != []
  {
    if pairs == [] then []
    else
      (if Crc.Check(pairs[0].0, CrcInput(pairs[0].1, noCrc)) == received then [pairs[0]] else [])
      + Matching(pairs[1..], noCrc, received)
  }

  function CrcValid(options: Options, matches: seq<(Crc.Algorithm, CrcRange)>): Option<bool>
  {
    match options.crcAlgo
    case None => None
    case Some(algorithm) => Some((algorithm, options.crcRange) in matches)
  }

  /** Everything read once the tail is chosen. */
  function ReadAt(direction: Direction, buf: seq<byte>, chosen: Candidate, options: Options,
                  tzOffsetMinutes: int): Frame
    requires |buf| >= 7 && 2 <= chosen.idx < |buf| - 3
  {
    var n := |buf|;
    var data, additional := buf[2..chosen.idx], buf[chosen.idx + 1..n - 3];
    var known := KnownLengths(direction, buf[2]);
    var lens := Interpretations(LEN_MODES, buf[0], |data|, n - 2);
    var matches := Matching(CRC_CANDIDATES, buf[..n - 1], buf[n - 1]);
    var valid := CrcValid(options, matches);
    var payload := Elock.DecodeBusinessData(data, tzOffsetMinutes);
    Frame(buf[0], ReadWord(buf, n - 3), buf[n - 1], data, additional, lens, matches, valid, payload,
          (if !chosen.knownLength && known != [] then [UndocumentedLength(|data|)] else [])
          + (if chosen.extra !in ExtraSizes(direction) then [UnexpectedExtra(chosen.extra)] else [])
          + (if lens == [] then [LenMatchesNothing] else [])
          + (if valid == Some(false) then [CrcMismatch] else [])
          + (if payload.Undecoded? then [PayloadError(payload.error)] else []))
  }

  function Decode(direction: Direction, buf: seq<byte>, options: Options, tzOffsetMinutes: int): Decoded
  {
    if |buf| < 7 then Refused(TooShort)
    else if buf[1] != HEAD then Refused(NoHead(buf[1]))
    else
      var candidates := Candidates(direction, buf);
      if candidates == [] then Refused(NoTail)
      else
        CandidatesInside(direction, buf);
        SortIsStable(direction, candidates, 0);
        var chosen := Sorted(direction, candidates)[0];
        assert chosen in candidates;
        Decoded(ReadAt(direction, buf, chosen, options, tzOffsetMinutes))
  }

  predicate Inside(buf: seq<byte>, c: Candidate)
  {
    2 <= c.idx < |buf| - 3 && buf[c.idx] == TAIL && c.extra == |buf| - 4 - c.idx
  }

  lemma {:induction false} ByLengthInside(buf: seq<byte>, lengths: seq<nat>)
    requires |buf| >= 7
    ensures forall c :: c in ByLength(buf, lengths) ==> Inside(buf, c)
  {
    if lengths != [] {
      ByLengthInside(buf, lengths[1..]);
    }
  }

  lemma {:induction false} WithExtrasInside(buf: seq<byte>, sizes: seq<nat>, found: seq<Candidate>)
    requires |buf| >= 7
    requires forall c :: c in found ==> Inside(buf, c)
    ensures forall c :: c in WithExtras(buf, sizes, found) ==> Inside(buf, c)
    ensures found <= WithExtras(buf, sizes, found)
    ensures forall c :: c in WithExtras(buf, sizes, found) && c !in found ==> !c.knownLength
    decreases sizes
  {
    if sizes != [] {
      var idx := |buf| - 3 - sizes[0] - 1;
      var more := if idx >= 3 && buf[idx] == TAIL && !HasIdx(found, idx) then found + [Candidate(idx, false, sizes[0])]
        else found;
      WithExtrasInside(buf, sizes[1..], more);
    }
  }

  /** Every candidate really is a 0x23 between head and serial. */
  lemma CandidatesInside(direction: Direction, buf: seq<byte>)
    requires |buf| >= 7
    ensures forall c :: c in Candidates(direction, buf) ==> Inside(buf, c)
  {
    ByLengthInside(buf, KnownLengths(direction, buf[2]));
    WithExtrasInside(buf, ExtraSizes(direction), ByLength(buf, KnownLengths(direction, buf[2])));
  }
}
