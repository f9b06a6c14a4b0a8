/** The decoder of the business envelope as the source runs it, and when its guess of the tail is right. */
module BusinessFrameLaws {
  import opened Bytes
  import opened BusinessFrame
  import Crc
  import Elock

  // ---------- the method of the source ----------

  lemma {:induction false} ByLengthNext(buf: seq<byte>, lengths: seq<nat>, i: nat)
    requires |buf| >= 7 && i < |lengths|
    ensures ByLength(buf, lengths[..i + 1]) == ByLength(buf, lengths[..i]) + ByLength(buf, [lengths[i]])
  {
    if i == 0 {
      assert lengths[..1] == [lengths[0]];
    } else {
      ByLengthNext(buf, lengths[1..], i - 1);
      assert lengths[..i + 1][1..] == lengths[1..][..i];
      assert lengths[..i][1..] == lengths[1..][..i - 1];
    }
  }

  lemma {:induction false} WithExtrasNext(buf: seq<byte>, sizes: seq<nat>, found: seq<Candidate>, i: nat)
    requires |buf| >= 7 && i < |sizes|
    ensures WithExtras(buf, sizes[..i + 1], found) == WithExtras(buf, [sizes[i]], WithExtras(buf, sizes[..i], found))
    decreases i
  {
    hide HasIdx;
    if i == 0 {
      assert sizes[..1] == [sizes[0]];
    } else {
      assert sizes[..i + 1][1..] == sizes[1..][..i];
      assert sizes[..i][1..] == sizes[1..][..i - 1];
      var idx := |buf| - 3 - sizes[0] - 1;
      var more := if idx >= 3 && buf[idx] == TAIL && !HasIdx(found, idx) then found + [Candidate(idx, false, sizes[0])]
        else found;
      WithExtrasNext(buf, sizes[1..], more, i - 1);
    }
  }

  lemma OneMore(buf: seq<byte>, n: nat, found: seq<Candidate>)
    requires |buf| >= 7
    ensures ByLength(buf, [n])
         == if 2 + n < |buf| - 3 && buf[2 + n] == TAIL then [Candidate(2 + n, true, |buf| - 3 - (2 + n) - 1)] else []
    ensures var idx := |buf| - 3 - n - 1;
      WithExtras(buf, [n], found)
      == if idx >= 3 && buf[idx] == TAIL && !HasIdx(found, idx) then found + [Candidate(idx, false, n)] else found
  {
    assert [n][1..] == [];
  }

  /** The two loops of decodeBusinessFrame that collect possible positions of the tail. */
  method FindCandidates(direction: Direction, buf: seq<byte>) returns (candidates: seq<Candidate>)
    requires |buf| >= 7
    ensures candidates == Candidates(direction, buf)
  {
    hide ByLength, WithExtras, KnownLengths, ExtraSizes;
    var bodyEnd := |buf| - 3;
    candidates := [];
    var known := KnownLengths(direction, buf[2]);
    NoMore(buf, []);
    for i := 0 to |known|
      invariant candidates == ByLength(buf, known[..i])
    {
      ByLengthNext(buf, known, i);
      OneMore(buf, known[i], []);
      var idx := 2 + known[i];
      if idx < bodyEnd && buf[idx] == TAIL {
        candidates := candidates + [Candidate(idx, true, bodyEnd - idx - 1)];
      }
    }
    assert known[..|known|] == known;
    ghost var found := candidates;
    NoMore(buf, found);
    var extras := ExtraSizes(direction);
    for i := 0 to |extras|
      invariant candidates == WithExtras(buf, extras[..i], found)
    {
      WithExtrasNext(buf, extras, found, i);
      OneMore(buf, extras[i], candidates);
      var idx := bodyEnd - extras[i] - 1;
      if idx >= 3 && buf[idx] == TAIL && !HasIdx(candidates, idx) {
        candidates := candidates + [Candidate(idx, false, extras[i])];
      }
    }
    assert extras[..|extras|] == extras;
  }

  lemma NoMore(buf: seq<byte>, found: seq<Candidate>)
    requires |buf| >= 7
    ensures ByLength(buf, []) == [] && WithExtras(buf, [], found) == found
  {
  }

  /** decodeBusinessFrame. */
  method DecodeBusinessFrame(direction: Direction, buf: seq<byte>, options: Options, tzOffsetMinutes: int)
    returns (r: Decoded)
    ensures r == Decode(direction, buf, options, tzOffsetMinutes)
  {
    if |buf| < 7 {
      return Refused(TooShort);
    }
    if buf[1] != HEAD {
      return Refused(NoHead(buf[1]));
    }
    var candidates := FindCandidates(direction, buf);
    if |candidates| == 0 {
      return Refused(NoTail);
    }
    var sorted := Sorted(direction, candidates);
    CandidatesInside(direction, buf);
    SortIsStable(direction, candidates, 0);
    assert sorted[0] in candidates;
    return Decoded(ReadAt(direction, buf, sorted[0], options, tzOffsetMinutes));
  }

  // ---------- which candidate wins ----------

  /** The best possible score. */
  lemma ScoreBound(direction: Direction, c: Candidate)
    ensures Score(direction, c) <= 3
  {
  }

  lemma {:induction false} FirstOfScore(direction: Direction, s: seq<Candidate>, k: nat)
    requires k < |s| && forall i :: 0 <= i < k ==> Score(direction, s[i]) < 3
    requires Score(direction, s[k]) == 3
    ensures OfScore(direction, s, 3) != [] && OfScore(direction, s, 3)[0] == s[k]
  {
    if k > 0 {
      FirstOfScore(direction, s[1..], k - 1);
    }
  }

  lemma {:induction false} NoneOfScore(direction: Direction, s: seq<Candidate>)
    requires forall i :: 0 <= i < |s| ==> Score(direction, s[i]) < 3
    ensures OfScore(direction, s, 3) == []
  {
    if s != [] {
      NoneOfScore(direction, s[1..]);
    }
  }

  /** The first candidate with the full score of a known length and a known additional size is the one chosen. */
  lemma FirstFullScoreWins(direction: Direction, candidates: seq<Candidate>, k: nat)
    requires k < |candidates| && forall i :: 0 <= i < k ==> Score(direction, candidates[i]) < 3
    requires Score(direction, candidates[k]) == 3
    ensures Sorted(direction, candidates)[0] == candidates[k]
  {
    var sorted := Sorted(direction, candidates);
    SortIsStable(direction, candidates, 3);
    FirstOfScore(direction, candidates, k);
    ScoreBound(direction, sorted[0]);
    if Score(direction, sorted[0]) == 3 {
      FirstOfScore(direction, sorted, 0);
    } else {
      NoneOfScore(direction, sorted);
    }
  }

  // ---------- round trip ----------

  /** Operation code, data length and additional size as documented for the direction. */
  predicate Documented(direction: Direction, data: seq<byte>, additional: seq<byte>)
  {
    && data != []
    && |data| in KnownLengths(direction, data[0])
    && |additional| in ExtraSizes(direction)
  }

  /** A legacy reply whose additional information has a 0x23 where the tail of a 35-byte reply would be. */
  predicate TailMisread(direction: Direction, data: seq<byte>, additional: seq<byte>)
  {
    direction == Uplink && |data| == Elock.OPERATION_REPLY_LEGACY_LENGTH && |additional| == 38 && additional[9] == TAIL
  }

  lemma EncodedShape(data: seq<byte>, serial: int, additional: seq<byte>, options: Options)
    requires data != [] && Encode(data, serial, additional, options).Ok?
    ensures
      var f := Encode(data, serial, additional, options).value;
      var n, tail := |f|, 2 + |data|;
      && n == |data| + |additional| + 6
      && f[0] == LenValue(options.lenMode, |data|, n - 2)
      && f[1] == HEAD && f[2] == data[0] && f[2..tail] == data && f[tail] == TAIL && f[tail + 1..n - 3] == additional
      && ReadWord(f, n - 3) == serial % 0x1_0000
      && f[n - 1] == CrcByte(f[..n - 1], options)
  {
    var core := Core(data, serial, additional);
    var s := WordBytes(serial % 0x1_0000);
    var f := Encode(data, serial, additional, options).value;
    var n := |f|;
    assert f == [f[0], HEAD] + data + [TAIL] + additional + s + [f[n - 1]];
    assert f[..n - 1] == [f[0]] + core;
    WordRoundTrip(serial % 0x1_0000, s);
    assert f[n - 3] == s[0] && f[n - 2] == s[1];
  }

  lemma DocumentedEncodes(direction: Direction, data: seq<byte>, serial: int, additional: seq<byte>, options: Options)
    requires Documented(direction, data, additional)
    ensures Encode(data, serial, additional, options).Ok?
  {
    assert |data| <= 35 && |additional| <= 38;
  }

  /** The position the decoder takes for the tail of an encoded frame. */
  lemma ChosenTail(direction: Direction, data: seq<byte>, serial: int, additional: seq<byte>, options: Options)
    requires Documented(direction, data, additional)
    requires Encode(data, serial, additional, options).Ok?
    ensures
      var f := Encode(data, serial, additional, options).value;
      var candidates := Candidates(direction, f);
      && candidates != []
      && Sorted(direction, candidates)[0]
         == if TailMisread(direction, data, additional) then Candidate(37, true, 28)
           else Candidate(2 + |data|, true, |additional|)
  {
    hide Sorted, Encode, CrcByte, WithExtras, ByLength, Score;
    EncodedShape(data, serial, additional, options);
    var f := Encode(data, serial, additional, options).value;
    var known := KnownLengths(direction, data[0]);
    var found := ByLength(f, known);
    ByLengthInside(f, known);
    WithExtrasInside(f, ExtraSizes(direction), found);
    FoundByLength(direction, f, data, additional);
    FullScore(direction, |data|, |additional|);
    if |found| == 2 && Score(direction, found[0]) < 3 {
      FirstFullScoreWins(direction, Candidates(direction, f), 1);
    } else {
      FirstFullScoreWins(direction, Candidates(direction, f), 0);
    }
  }

  /** A known length scores 3 exactly with a known additional size; after a misplaced tail that needs 38 bytes. */
  lemma FullScore(direction: Direction, length: nat, extra: nat)
    requires extra in ExtraSizes(direction)
    ensures Score(direction, Candidate(2 + length, true, extra)) == 3
    ensures extra > 9 && direction == Uplink ==>
              Score(direction, Candidate(37, true, extra - 10)) == if extra == 38 then 3 else 2
  {
  }

  lemma FoundByLength(direction: Direction, f: seq<byte>, data: seq<byte>, additional: seq<byte>)
    requires Documented(direction, data, additional)
    requires |f| == |data| + |additional| + 6
    requires f[2..2 + |data|] == data && f[2 + |data|] == TAIL && f[3 + |data|..|f| - 3] == additional
    ensures
      var found := ByLength(f, KnownLengths(direction, data[0]));
      var truth := Candidate(2 + |data|, true, |additional|);
      || (found != [] && found[0] == truth && !TailMisread(direction, data, additional))
      || (direction == Uplink && |data| == 25 && |additional| > 9
          && found == [Candidate(37, true, |additional| - 10), truth]
          && (|additional| == 38 ==> TailMisread(direction, data, additional)))
  {
    var known := KnownLengths(direction, data[0]);
    if |known| == 1 {
      assert known[1..] == [];
      assert ByLength(f, known) == [Candidate(2 + |data|, true, |additional|)] + ByLength(f, known[1..]);
    } else {
      LegacyOrNot(f, data, additional);
    }
  }

  /** The candidates by length of an operation reply. */
  lemma LegacyOrNot(f: seq<byte>, data: seq<byte>, additional: seq<byte>)
    requires data != [] && data[0] == Elock.OPERATION_REPLY && |data| in [35, 25] && |additional| in ExtraSizes(Uplink)
    requires |f| == |data| + |additional| + 6
    requires f[2..2 + |data|] == data && f[2 + |data|] == TAIL && f[3 + |data|..|f| - 3] == additional
    ensures
      var found := ByLength(f, KnownLengths(Uplink, Elock.OPERATION_REPLY));
      var truth := Candidate(2 + |data|, true, |additional|);
      && (|data| == 35 ==> found != [] && found[0] == truth)
      && (|data| == 25 ==>
            || (found == [truth] && (|additional| == 38 ==> additional[9] != TAIL))
            || (|additional| > 9 && found == [Candidate(37, true, |additional| - 10), truth]
                && (|additional| == 38 ==> additional[9] == TAIL)))
  {
    var known := KnownLengths(Uplink, Elock.OPERATION_REPLY);
    var truth := Candidate(2 + |data|, true, |additional|);
    assert known[1..] == [25] && known[1..][1..] == [];
    var second := ByLength(f, known[1..]);
    if |data| == 25 {
      assert second == [truth] + ByLength(f, known[1..][1..]) == [truth];
      if |additional| > 9 {
        assert f[37] == f[28..|f| - 3][9];
        if f[37] == TAIL {
          assert ByLength(f, known) == [Candidate(37, true, |additional| - 10)] + second;
        }
      }
      if |additional| <= 9 || f[37] != TAIL {
        assert ByLength(f, known) == [] + second;
      }
    }
  }

  lemma {:induction false} InterpretationsComplete(modes: seq<LenMode>, lenByte: byte, dataLength: nat,
                                                   coreLength: nat, mode: LenMode)
    ensures mode in Interpretations(modes, lenByte, dataLength, coreLength)
       <==> mode in modes && LenValue(mode, dataLength, coreLength) == lenByte
  {
    if modes != [] {
      InterpretationsComplete(modes[1..], lenByte, dataLength, coreLength, mode);
    }
  }

  lemma {:induction false} MatchingComplete(pairs: seq<(Crc.Algorithm, CrcRange)>, noCrc: seq<byte>, received: byte,
                                            pair: (Crc.Algorithm, CrcRange))
    requires noCrc != []
    ensures pair in Matching(pairs, noCrc, received)
        <==> pair in pairs && Crc.Check(pair.0, CrcInput(pair.1, noCrc)) == received
  {
    if pairs != [] {
      MatchingComplete(pairs[1..], noCrc, received, pair);
    }
  }

  lemma AllPairs(pair: (Crc.Algorithm, CrcRange), mode: LenMode)
    ensures pair in CRC_CANDIDATES && mode in LEN_MODES
  {
    var k := match pair.0 case Crc8Maxim => 0 case XorAll => 2 case SumAll => 4;
    assert pair == CRC_CANDIDATES[k + if pair.1 == FromLen then 0 else 1];
    assert mode == LEN_MODES[match mode case AfterLen => 0 case AfterLenExclCrc => 1 case DocExample => 2];
  }

  /** What the decoder recovers from an encoded frame of documented shape, under every LEN mode and every CRC
      algorithm and range: data, additional bytes, serial and CRC evidence, with the configured LEN among the
      matching interpretations. It fails exactly when the tail is misread; then 35 bytes are taken as the data. */
  lemma BusinessFrameRoundTrip(direction: Direction, data: seq<byte>, serial: int, additional: seq<byte>,
                               options: Options, tzOffsetMinutes: int)
    requires Documented(direction, data, additional)
    ensures Encode(data, serial, additional, options).Ok?
    ensures
      var misread := TailMisread(direction, data, additional);
      match Decode(direction, Encode(data, serial, additional, options).value, options, tzOffsetMinutes)
      case Refused(_) => false
      case Decoded(f) =>
        && ((f.data == data && f.additional == additional) <==> !misread)
        && (misread ==> f.data == data + [TAIL] + additional[..9] && f.additional == additional[10..])
        && f.serial == serial % 0x1_0000
        && f.crcValid == (if options.crcAlgo.None? then None else Some(true))
        && (options.lenMode in f.lenInterpretations <==> !misread || options.lenMode != DocExample)
        && f.payload == Elock.DecodeBusinessData(f.data, tzOffsetMinutes)
  {
    hide Sorted, Encode, CrcByte, Candidates, Elock.DecodeBusinessData, Interpretations, Matching;
    DocumentedEncodes(direction, data, serial, additional, options);
    EncodedShape(data, serial, additional, options);
    ChosenTail(direction, data, serial, additional, options);
    var buf := Encode(data, serial, additional, options).value;
    var n := |buf|;
    var chosen := Sorted(direction, Candidates(direction, buf))[0];
    var f := ReadAt(direction, buf, chosen, options, tzOffsetMinutes);
    AllPairs((Crc.XorAll, FromLen), options.lenMode);
    InterpretationsComplete(LEN_MODES, buf[0], |f.data|, n - 2, options.lenMode);
    CrcIsValid(buf, options);
    if TailMisread(direction, data, additional) {
      MisreadSlices(buf, data, additional);
    }
  }

  lemma CrcIsValid(buf: seq<byte>, options: Options)
    requires |buf| >= 7 && buf[|buf| - 1] == CrcByte(buf[..|buf| - 1], options)
    ensures CrcValid(options, Matching(CRC_CANDIDATES, buf[..|buf| - 1], buf[|buf| - 1]))
         == if options.crcAlgo.None? then None else Some(true)
  {
    if options.crcAlgo.Some? {
      var pair := (options.crcAlgo.value, options.crcRange);
      AllPairs(pair, AfterLen);
      MatchingComplete(CRC_CANDIDATES, buf[..|buf| - 1], buf[|buf| - 1], pair);
    }
  }

  lemma MisreadSlices(buf: seq<byte>, data: seq<byte>, additional: seq<byte>)
    requires |data| == 25 && |additional| == 38 && |buf| == 69
    requires buf[2..27] == data && buf[27] == TAIL && buf[28..66] == additional
    ensures buf[2..37] == data + [TAIL] + additional[..9] && buf[38..66] == additional[10..]
    ensures |buf[2..37]| == 35
  {
    assert buf[2..37] == buf[2..27] + [buf[27]] + buf[28..37];
    assert buf[28..37] == buf[28..66][..9];
    assert buf[38..66] == buf[28..66][10..];
  }

  /** A documented frame that is not misread is decoded without any warning but one about its payload. */
  lemma NoSpuriousWarning(direction: Direction, data: seq<byte>, serial: int, additional: seq<byte>, options: Options,
                          tzOffsetMinutes: int)
    requires Documented(direction, data, additional) && !TailMisread(direction, data, additional)
    requires Encode(data, serial, additional, options).Ok?
    ensures
      match Decode(direction, Encode(data, serial, additional, options).value, options, tzOffsetMinutes)
      case Refused(_) => false
      case Decoded(f) => forall w :: w in f.warnings ==> w.PayloadError?
  {
    hide Sorted, Encode, CrcByte, Candidates, Elock.DecodeBusinessData, Interpretations, Matching;
    BusinessFrameRoundTrip(direction, data, serial, additional, options, tzOffsetMinutes);
    ChosenTail(direction, data, serial, additional, options);
    EncodedShape(data, serial, additional, options);
  }

  /** The misreading does occur: a legacy reply followed by 38 bytes of 0x23. */
  lemma MisreadOccurs(options: Options)
    ensures
      var data := [Elock.OPERATION_REPLY] + seq(24, _ => 0);
      var additional := seq(38, _ => TAIL);
      && Documented(Uplink, data, additional) && TailMisread(Uplink, data, additional)
      && Encode(data, 0, additional, options).Ok?
      && Decode(Uplink, Encode(data, 0, additional, options).value, options, 480).Decoded?
      && Decode(Uplink, Encode(data, 0, additional, options).value, options, 480).frame.data != data
  {
    var data: seq<byte> := [Elock.OPERATION_REPLY] + seq(24, _ => 0);
    var additional: seq<byte> := seq(38, _ => TAIL);
    hide Encode, Decode;
    BusinessFrameRoundTrip(Uplink, data, 0, additional, options, 480);
  }
}
