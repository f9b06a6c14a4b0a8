/** Byte stuffing of server/src/protocol/escape.js (section 4.4.2 of JT/T 808-2013):
    0x7E is sent as 0x7D 0x02 and 0x7D as 0x7D 0x01. */
module Escape {
  import opened Bytes

  const FLAG: byte := 0x7e
  const ESC: byte := 0x7d

  datatype Reason = TrailingEscape | InvalidEscape(next: byte) | UnescapedFlag

  datatype EscapeError = EscapeError(offset: nat, reason: Reason)

  datatype Unescaped = Unescaped(data: seq<byte>, errors: seq<EscapeError>)

  function EscapeByte(b: byte): (e: seq<byte>)
    ensures 1 <= |e| <= 2
  {
    if b == FLAG then [ESC, 0x02] else if b == ESC then [ESC, 0x01] else [b]
  }

  function Escaped(data: seq<byte>): seq<byte>
  {
    if data == [] then [] else EscapeByte(data[0]) + Escaped(data[1..])
  }

  function Prepend(b: byte, errors: seq<EscapeError>, rest: Unescaped): Unescaped
  {
    Unescaped([b] + rest.data, errors + rest.errors)
  }

  /** Reads `data` from its first byte; `offset` is the position of that byte in the frame. */
  function UnescapeFrom(data: seq<byte>, offset: nat): Unescaped
    decreases |data|
  {
    if data == [] then Unescaped([], [])
    else if data[0] == ESC then
      if |data| == 1 then Prepend(ESC, [EscapeError(offset, TrailingEscape)], UnescapeFrom(data[1..], offset + 1))
      else if data[1] == 0x02 then Prepend(FLAG, [], UnescapeFrom(data[2..], offset + 2))
      else if data[1] == 0x01 then Prepend(ESC, [], UnescapeFrom(data[2..], offset + 2))
      else Prepend(ESC, [EscapeError(offset, InvalidEscape(data[1]))], UnescapeFrom(data[1..], offset + 1))
    else
      Prepend(data[0], if data[0] == FLAG then [EscapeError(offset, UnescapedFlag)] else [],
              UnescapeFrom(data[1..], offset + 1))
  }

  // ---------- the loops of the source ----------

  function Extra(data: seq<byte>): (n: nat)
    ensures |Escaped(data)| == |data| + n
  {
    if data == [] then 0 else (if data[0] == FLAG || data[0] == ESC then 1 else 0) + Extra(data[1..])
  }

  lemma {:induction false} EscapedAppend(a: seq<byte>, b: seq<byte>)
    ensures Escaped(a + b) == Escaped(a) + Escaped(b)
  {
    if a == [] {
      assert a + b == b;
    } else {
      assert (a + b)[1..] == a[1..] + b;
      EscapedAppend(a[1..], b);
    }
  }

  lemma {:induction false} ExtraAppend(a: seq<byte>, b: seq<byte>)
    ensures Extra(a + b) == Extra(a) + Extra(b)
  {
    if a == [] {
      assert a + b == b;
    } else {
      assert (a + b)[1..] == a[1..] + b;
      ExtraAppend(a[1..], b);
    }
  }

  lemma EscapedNext(data: seq<byte>, i: nat)
    requires i < |data|
    ensures Escaped(data[..i + 1]) == Escaped(data[..i]) + EscapeByte(data[i])
    ensures |Escaped(data[..i + 1])| <= |Escaped(data)|
    ensures Extra(data[..i + 1]) == Extra(data[..i]) + if data[i] == FLAG || data[i] == ESC then 1 else 0
  {
    EscapedAppend(data[..i], [data[i]]);
    ExtraAppend(data[..i], [data[i]]);
    EscapedAppend(data[..i + 1], data[i + 1..]);
    assert data[..i + 1] == data[..i] + [data[i]];
    assert data == data[..i + 1] + data[i + 1..];
    assert [data[i]][1..] == [];
    assert Escaped([data[i]]) == EscapeByte(data[i]);
    assert Extra([data[i]]) == if data[i] == FLAG || data[i] == ESC then 1 else 0;
  }

  /** The first loop of escape. */
  method CountSpecial(data: seq<byte>) returns (extra: nat)
    ensures extra == Extra(data)
  {
    hide Escaped, EscapeByte;
    extra := 0;
    for i := 0 to |data|
      invariant extra == Extra(data[..i])
    {
      EscapedNext(data, i);
      if data[i] == FLAG || data[i] == ESC {
        extra := extra + 1;
      }
    }
    assert data[..|data|] == data;
  }

  /** One turn of the second loop: the escaped byte goes in at j. */
  method PutEscaped(out: array<byte>, j: nat, b: byte) returns (next: nat)
    requires j + |EscapeByte(b)| <= out.Length
    modifies out
    ensures next == j + |EscapeByte(b)| && out[..next] == old(out[..j]) + EscapeByte(b)
  {
    if b == FLAG {
      out[j], out[j + 1] := ESC, 0x02;
      next := j + 2;
    } else if b == ESC {
      out[j], out[j + 1] := ESC, 0x01;
      next := j + 2;
    } else {
      out[j] := b;
      next := j + 1;
    }
  }

  /** escape: counts the special bytes, then fills a buffer of exactly that size. */
  method EscapeBuffer(data: seq<byte>) returns (out: array<byte>)
    ensures fresh(out) && out[..] == Escaped(data)
  {
    hide Escaped, EscapeByte, Extra;
    var extra := CountSpecial(data);
    out := new byte[|data| + extra](_ => 0);
    var j := 0;
    EscapedNothing(data);
    for i := 0 to |data|
      invariant j == |Escaped(data[..i])| && j <= out.Length && out[..j] == Escaped(data[..i])
    {
      EscapedNext(data, i);
      j := PutEscaped(out, j, data[i]);
    }
    assert data[..|data|] == data;
    assert out[..j] == out[..];
  }

  lemma EscapedNothing(data: seq<byte>)
    ensures Escaped(data[..0]) == []
  {
  }

  /** One turn of the loop of unescape at offset i: the byte to keep, the errors to report, the bytes to consume. */
  function StepAt(data: seq<byte>, i: nat): (byte, seq<EscapeError>, nat)
    requires i < |data|
  {
    var b := data[i];
    if b == ESC then
      if i + 1 == |data| then (b, [EscapeError(i, TrailingEscape)], 1)
      else if data[i + 1] == 0x02 then (FLAG, [], 2)
      else if data[i + 1] == 0x01 then (ESC, [], 2)
      else (b, [EscapeError(i, InvalidEscape(data[i + 1]))], 1)
    else (b, if b == FLAG then [EscapeError(i, UnescapedFlag)] else [], 1)
  }

  lemma UnescapeAt(data: seq<byte>, i: nat)
    requires i < |data|
    ensures
      var (b, errors, n) := StepAt(data, i);
      UnescapeFrom(data[i..], i) == Prepend(b, errors, UnescapeFrom(data[i + n..], i + n))
  {
    var rest := data[i..];
    assert rest[1..] == data[i + 1..];
    if |rest| > 1 {
      assert rest[2..] == data[i + 2..];
    }
  }

  lemma Appended(done: seq<byte>, b: byte, rest: seq<byte>)
    ensures done + ([b] + rest) == (done + [b]) + rest
  {
  }

  lemma AppendedErrors(done: seq<EscapeError>, e: seq<EscapeError>, rest: seq<EscapeError>)
    ensures done + (e + rest) == (done + e) + rest
  {
  }

  /** What is done so far and what remains still make up the whole result after one more step. */
  lemma UnescapeNext(data: seq<byte>, i: nat, done: seq<byte>, errors: seq<EscapeError>)
    requires i < |data|
    requires done + UnescapeFrom(data[i..], i).data == UnescapeFrom(data, 0).data
    requires errors + UnescapeFrom(data[i..], i).errors == UnescapeFrom(data, 0).errors
    ensures
      var (b, found, n) := StepAt(data, i);
      && done + [b] + UnescapeFrom(data[i + n..], i + n).data == UnescapeFrom(data, 0).data
      && errors + found + UnescapeFrom(data[i + n..], i + n).errors == UnescapeFrom(data, 0).errors
  {
    var (b, found, n) := StepAt(data, i);
    UnescapeAt(data, i);
    Appended(done, b, UnescapeFrom(data[i + n..], i + n).data);
    AppendedErrors(errors, found, UnescapeFrom(data[i + n..], i + n).errors);
  }

  /** unescape: writes into a buffer of the input's length and keeps the filled part. */
  method Unescape(data: seq<byte>) returns (r: Unescaped)
    ensures r == UnescapeFrom(data, 0)
  {
    var out := new byte[|data|](_ => 0);
    var errors: seq<EscapeError> := [];
    var i, j := 0, 0;
    assert data[0..] == data;
    while i < |data|
      invariant 0 <= i <= |data| && 0 <= j <= i
      invariant out[..j] + UnescapeFrom(data[i..], i).data == UnescapeFrom(data, 0).data
      invariant errors + UnescapeFrom(data[i..], i).errors == UnescapeFrom(data, 0).errors
    {
      var b, found, n := data[i], [], 1;
      if data[i] == ESC {
        if i + 1 < |data| && data[i + 1] == 0x02 {
          b, n := FLAG, 2;
        } else if i + 1 < |data| && data[i + 1] == 0x01 {
          n := 2;
        } else {
          found := [EscapeError(i, if i + 1 < |data| then InvalidEscape(data[i + 1]) else TrailingEscape)];
        }
      } else if data[i] == FLAG {
        found := [EscapeError(i, UnescapedFlag)];
      }
      assert StepAt(data, i) == (b, found, n);
      UnescapeNext(data, i, out[..j], errors);
      ghost var done := out[..j];
      out[j] := b;
      assert out[..j + 1] == done + [b];
      i, j, errors := i + n, j + 1, errors + found;
    }
    r := Unescaped(out[..j], errors);
  }

  // ---------- bijection ----------

  /** Escaped bytes never contain the frame delimiter. */
  lemma {:induction false} EscapedHasNoFlag(data: seq<byte>)
    ensures FLAG !in Escaped(data)
  {
    if data != [] {
      EscapedHasNoFlag(data[1..]);
    }
  }

  lemma {:induction false} EscapedLength(data: seq<byte>)
    ensures |data| <= |Escaped(data)| <= 2 * |data|
  {
    if data != [] {
      EscapedLength(data[1..]);
    }
  }

  /** Unescaping undoes escaping, with no error reported. */
  lemma {:induction false} UnescapeUndoesEscape(data: seq<byte>, offset: nat)
    ensures UnescapeFrom(Escaped(data), offset) == Unescaped(data, [])
  {
    if data != [] {
      var e := EscapeByte(data[0]);
      assert (e + Escaped(data[1..]))[|e|..] == Escaped(data[1..]);
      UnescapeUndoesEscape(data[1..], offset + |e|);
      assert data == [data[0]] + data[1..];
    }
  }

  /** Whatever unescapes without an error is the escaping of what it unescapes to. */
  lemma {:induction false} EscapeUndoesUnescape(data: seq<byte>, offset: nat)
    requires UnescapeFrom(data, offset).errors == []
    ensures Escaped(UnescapeFrom(data, offset).data) == data
    decreases |data|
  {
    if data != [] {
      var u := UnescapeFrom(data, offset).data;
      if data[0] == ESC {
        assert |data| > 1;
        EscapeUndoesUnescape(data[2..], offset + 2);
        assert u[1..] == UnescapeFrom(data[2..], offset + 2).data;
        assert data == [data[0], data[1]] + data[2..];
      } else {
        EscapeUndoesUnescape(data[1..], offset + 1);
        assert u[1..] == UnescapeFrom(data[1..], offset + 1).data;
        assert data == [data[0]] + data[1..];
      }
    }
  }

  /** unescape reports no error exactly on the image of escape, where the two are inverse to each other. */
  lemma EscapingIsBijection(wire: seq<byte>, data: seq<byte>)
    ensures UnescapeFrom(wire, 0) == Unescaped(data, []) <==> wire == Escaped(data)
  {
    UnescapeUndoesEscape(data, 0);
    if UnescapeFrom(wire, 0) == Unescaped(data, []) {
      EscapeUndoesUnescape(wire, 0);
    }
  }
}
