/** The one-byte checks of server/src/protocol/crc.js and checksum.js, with what they detect. */
module Crc {
  import opened Bytes

  datatype Algorithm = Crc8Maxim | XorAll | SumAll

  // ---------- CRC-8/MAXIM (Maxim Application Note 27) ----------

  const POLYNOMIAL: byte := 0x8c

  /** One turn of the inner loop: shift right, and fold in the polynomial when a one falls out. */
  function Shift(crc: byte): byte
  {
    if crc % 2 == 1 then XorByte(crc / 2, POLYNOMIAL) else crc / 2
  }

  const BITS: nat := 8

  function ShiftTimes(crc: byte, n: nat): byte
    decreases n
  {
    if n == 0 then crc else ShiftTimes(Shift(crc), n - 1)
  }

  function CrcFrom(crc: byte, buf: seq<byte>): byte
    decreases buf
  {
    if buf == [] then crc else CrcFrom(ShiftTimes(XorByte(crc, buf[0]), BITS), buf[1..])
  }

  function CrcOf(buf: seq<byte>): byte
  {
    CrcFrom(0, buf)
  }

  function XorOf(buf: seq<byte>): byte
  {
    if buf == [] then 0 else XorByte(XorOf(buf[..|buf| - 1]), buf[|buf| - 1])
  }

  function SumOf(buf: seq<byte>): byte
  {
    if buf == [] then 0 else AddByte(SumOf(buf[..|buf| - 1]), buf[|buf| - 1])
  }

  function Check(algorithm: Algorithm, buf: seq<byte>): byte
  {
    match algorithm
    case Crc8Maxim => CrcOf(buf)
    case XorAll => XorOf(buf)
    case SumAll => SumOf(buf)
  }

  // ---------- the loops of the source ----------

  lemma {:induction false} CrcFromAppend(crc: byte, a: seq<byte>, b: seq<byte>)
    ensures CrcFrom(crc, a + b) == CrcFrom(CrcFrom(crc, a), b)
    decreases a
  {
    if a == [] {
      assert a + b == b;
    } else {
      assert (a + b)[1..] == a[1..] + b;
      CrcFromAppend(ShiftTimes(XorByte(crc, a[0]), BITS), a[1..], b);
    }
  }

  /** The CRC of one byte more. */
  lemma CrcNext(buf: seq<byte>, k: nat)
    requires k < |buf|
    ensures CrcOf(buf[..k + 1]) == ShiftTimes(XorByte(CrcOf(buf[..k]), buf[k]), BITS)
  {
    hide ShiftTimes, XorByte;
    CrcFromAppend(0, buf[..k], [buf[k]]);
    assert buf[..k] + [buf[k]] == buf[..k + 1];
    assert [buf[k]][1..] == [];
    assert CrcFrom(CrcOf(buf[..k]), [buf[k]]) == CrcFrom(ShiftTimes(XorByte(CrcOf(buf[..k]), buf[k]), BITS), []);
  }

  /** crc8Maxim. */
  method Crc8(buf: seq<byte>) returns (crc: byte)
    ensures crc == CrcOf(buf)
  {
    hide CrcOf, XorByte;
    crc := 0;
    assert CrcOf(buf[..0]) == 0 by {
      CrcOfNothing(buf);
    }
    for k := 0 to |buf|
      invariant crc == CrcOf(buf[..k])
    {
      CrcNext(buf, k);
      var mixed := XorByte(crc, buf[k]);
      crc := mixed;
      var i := 0;
      while i < BITS
        invariant 0 <= i <= BITS
        invariant ShiftTimes(crc, BITS - i) == ShiftTimes(mixed, BITS)
      {
        if crc % 2 == 1 {
          crc := XorByte(crc / 2, POLYNOMIAL);
        } else {
          crc := crc / 2;
        }
        i := i + 1;
      }
    }
    assert buf[..|buf|] == buf;
  }

  lemma CrcOfNothing(buf: seq<byte>)
    ensures CrcOf(buf[..0]) == 0
  {
  }

  /** xor8 on the whole buffer and xorChecksum on the range start..end. */
  method XorChecksum(buf: seq<byte>, start: nat, end: nat) returns (c: byte)
    requires start <= end <= |buf|
    ensures c == XorOf(buf[start..end])
  {
    c := 0;
    for i := start to end
      invariant c == XorOf(buf[start..i])
    {
      assert buf[start..i + 1][..i - start] == buf[start..i];
      c := XorByte(c, buf[i]);
    }
  }

  /** sum8. */
  method Sum8(buf: seq<byte>) returns (c: byte)
    ensures c == SumOf(buf)
  {
    c := 0;
    for i := 0 to |buf|
      invariant c == SumOf(buf[..i])
    {
      assert buf[..i + 1][..i] == buf[..i];
      c := (c as int + buf[i]) % 0x100;
    }
    assert buf[..|buf|] == buf;
  }

  // ---------- linearity ----------

  /** Byte-wise exclusive or of two buffers of the same length. */
  function XorBuffers(a: seq<byte>, b: seq<byte>): (c: seq<byte>)
    requires |a| == |b|
    ensures |c| == |a|
  {
    seq(|a|, i requires 0 <= i < |a| => XorByte(a[i], b[i]))
  }

  lemma ShiftLinear(a: byte, b: byte)
    ensures Shift(XorByte(a, b)) == XorByte(Shift(a), Shift(b))
  {
    var p, q := a / 2, b / 2;
    XorStep(a, b);
    XorAssoc(p, POLYNOMIAL, q);
    XorAssoc(p, q, POLYNOMIAL);
    XorComm(POLYNOMIAL, q);
    XorSwap(p, POLYNOMIAL, q, POLYNOMIAL);
    XorSelf(POLYNOMIAL);
    XorZero(Xor(p, q));
  }

  lemma {:induction false} ShiftTimesLinear(a: byte, b: byte, n: nat)
    ensures ShiftTimes(XorByte(a, b), n) == XorByte(ShiftTimes(a, n), ShiftTimes(b, n))
    decreases n
  {
    if n > 0 {
      ShiftLinear(a, b);
      ShiftTimesLinear(Shift(a), Shift(b), n - 1);
    }
  }

  /** One byte of both buffers. */
  lemma CrcByteLinear(c: byte, d: byte, x: byte, y: byte)
    ensures ShiftTimes(XorByte(XorByte(c, d), XorByte(x, y)), BITS)
         == XorByte(ShiftTimes(XorByte(c, x), BITS), ShiftTimes(XorByte(d, y), BITS))
  {
    hide ShiftTimes;
    XorSwap(c, d, x, y);
    ShiftTimesLinear(XorByte(c, x), XorByte(d, y), BITS);
  }

  lemma {:induction false} CrcFromLinear(c: byte, d: byte, a: seq<byte>, b: seq<byte>)
    requires |a| == |b|
    ensures CrcFrom(XorByte(c, d), XorBuffers(a, b)) == XorByte(CrcFrom(c, a), CrcFrom(d, b))
    decreases a
  {
    if a != [] {
      var x := XorBuffers(a, b);
      CrcByteLinear(c, d, a[0], b[0]);
      assert x[0] == XorByte(a[0], b[0]) && x[1..] == XorBuffers(a[1..], b[1..]);
      hide XorByte, ShiftTimes, XorBuffers;
      CrcFromLinear(ShiftTimes(XorByte(c, a[0]), BITS), ShiftTimes(XorByte(d, b[0]), BITS), a[1..], b[1..]);
    }
  }

  /** The CRC of the exclusive or of two equally long buffers is the exclusive or of their CRCs. */
  lemma CrcLinear(a: seq<byte>, b: seq<byte>)
    requires |a| == |b|
    ensures CrcOf(XorBuffers(a, b)) == XorByte(CrcOf(a), CrcOf(b))
  {
    XorZero(0);
    CrcFromLinear(0, 0, a, b);
  }

  lemma {:induction false} ShiftTimesZero(n: nat)
    ensures ShiftTimes(0, n) == 0
  {
    if n > 0 {
      ShiftTimesZero(n - 1);
    }
  }

  /** Appending its own CRC to a buffer makes the CRC of the whole zero, and no other last byte does. */
  lemma CrcResidueZero(data: seq<byte>, last: byte)
    ensures CrcOf(data + [last]) == 0 <==> last == CrcOf(data)
  {
    CrcFromAppend(0, data, [last]);
    var mixed := XorByte(CrcOf(data), last);
    assert CrcFrom(CrcOf(data), [last]) == CrcFrom(ShiftTimes(mixed, BITS), []);
    XorIsZero(CrcOf(data), last);
    ShiftTimesZero(8);
    if mixed != 0 {
      ShiftTimesNonZero(mixed, BITS);
    }
  }

  // ---------- no covered change is lost ----------

  lemma TopBit(p: byte)
    requires p < 0x80
    ensures Xor(p, POLYNOMIAL) != 0
  {
    XorIsZero(p, POLYNOMIAL);
  }

  lemma {:induction false} ShiftTimesNonZero(a: byte, n: nat)
    requires a != 0
    ensures ShiftTimes(a, n) != 0
    decreases n
  {
    if n > 0 {
      TopBit(a / 2);
      ShiftTimesNonZero(Shift(a), n - 1);
    }
  }

  lemma {:induction false} CrcFromDistinct(c: byte, d: byte, buf: seq<byte>)
    requires c != d
    ensures CrcFrom(c, buf) != CrcFrom(d, buf)
    decreases buf
  {
    if buf != [] {
      var p, q := XorByte(c, buf[0]), XorByte(d, buf[0]);
      if p == q {
        XorCancel(c, d, buf[0]);
      }
      XorIsZero(p, q);
      ShiftTimesNonZero(XorByte(p, q), BITS);
      ShiftTimesLinear(p, q, BITS);
      XorIsZero(ShiftTimes(p, BITS), ShiftTimes(q, BITS));
      CrcFromDistinct(ShiftTimes(p, BITS), ShiftTimes(q, BITS), buf[1..]);
    }
  }

  lemma {:induction false} XorOfFrom(a: seq<byte>, b: seq<byte>)
    ensures XorOf(a + b) == XorByte(XorOf(a), XorOf(b))
  {
    if b == [] {
      assert a + b == a;
      XorZero(XorOf(a));
    } else {
      var t, x := b[..|b| - 1], b[|b| - 1];
      assert (a + b)[..|a + b| - 1] == a + t;
      XorOfFrom(a, t);
      XorAssoc(XorOf(a), XorOf(t), x);
    }
  }

  function AddByte(a: byte, b: byte): byte
  {
    (a as int + b) % 0x100
  }

  lemma AddByteIs(a: byte, b: byte)
    ensures AddByte(a, b) == if a as int + b < 0x100 then a as int + b else a as int + b - 0x100
  {
  }

  lemma AddByteAssoc(a: byte, b: byte, c: byte)
    ensures AddByte(AddByte(a, b), c) == AddByte(a, AddByte(b, c))
  {
    AddByteIs(a, b);
    AddByteIs(b, c);
    AddByteIs(AddByte(a, b), c);
    AddByteIs(a, AddByte(b, c));
    hide AddByte;
  }

  lemma AddByteCancel(a: byte, b: byte, c: byte)
    ensures AddByte(a, b) == AddByte(a, c) ==> b == c
    ensures AddByte(b, a) == AddByte(c, a) ==> b == c
  {
    AddByteIs(a, b);
    AddByteIs(a, c);
    AddByteIs(b, a);
    AddByteIs(c, a);
    hide AddByte;
  }

  lemma {:induction false} SumOfFrom(a: seq<byte>, b: seq<byte>)
    ensures SumOf(a + b) == AddByte(SumOf(a), SumOf(b))
  {
    if b == [] {
      AddByteIs(SumOf(a), 0);
      assert a + b == a;
    } else {
      var t, x := b[..|b| - 1], b[|b| - 1];
      assert (a + b)[..|a + b| - 1] == a + t;
      SumOfFrom(a, t);
      AddByteAssoc(SumOf(a), SumOf(t), x);
    }
  }

  lemma CrcChangeDetected(front: seq<byte>, x: byte, y: byte, rest: seq<byte>)
    requires x != y
    ensures CrcOf(front + ([x] + rest)) != CrcOf(front + ([y] + rest))
  {
    CrcFromAppend(0, front, [x] + rest);
    CrcFromAppend(0, front, [y] + rest);
    var c := CrcOf(front);
    var p, q := XorByte(c, x), XorByte(c, y);
    XorComm(c, x);
    XorComm(c, y);
    if p == q {
      XorCancel(x, y, c);
    }
    assert ([x] + rest)[1..] == rest && ([y] + rest)[1..] == rest;
    XorIsZero(p, q);
    ShiftTimesNonZero(XorByte(p, q), BITS);
    ShiftTimesLinear(p, q, BITS);
    XorIsZero(ShiftTimes(p, BITS), ShiftTimes(q, BITS));
    CrcFromDistinct(ShiftTimes(p, BITS), ShiftTimes(q, BITS), rest);
  }

  lemma XorChangeDetected(front: seq<byte>, x: byte, y: byte, rest: seq<byte>)
    requires x != y
    ensures XorOf(front + ([x] + rest)) != XorOf(front + ([y] + rest))
  {
    XorOfFrom(front, [x] + rest);
    XorOfFrom(front, [y] + rest);
    XorOfFrom([x], rest);
    XorOfFrom([y], rest);
    XorOfOne(x);
    XorOfOne(y);
    var r := XorOf(rest);
    if XorOf(front + ([x] + rest)) == XorOf(front + ([y] + rest)) {
      XorComm(XorOf(front), Xor(x, r));
      XorComm(XorOf(front), Xor(y, r));
      XorCancel(Xor(x, r), Xor(y, r), XorOf(front));
      XorCancel(x, y, r);
    }
  }

  lemma SumOfOne(x: byte)
    ensures SumOf([x]) == x
  {
    assert [x][..0] == [];
    assert SumOf([x][..0]) == 0;
  }

  lemma SumChangeDetected(front: seq<byte>, x: byte, y: byte, rest: seq<byte>)
    requires x != y
    ensures SumOf(front + ([x] + rest)) != SumOf(front + ([y] + rest))
  {
    SumOfFrom(front, [x] + rest);
    SumOfFrom(front, [y] + rest);
    SumOfFrom([x], rest);
    SumOfFrom([y], rest);
    SumOfOne(x);
    SumOfOne(y);
    hide SumOf, AddByte;
    AddByteCancel(SumOf(rest), x, y);
    AddByteCancel(SumOf(front), SumOf([x] + rest), SumOf([y] + rest));
  }

  /** Every algorithm detects every change confined to one covered byte. */
  lemma SingleByteChangeDetected(algorithm: Algorithm, buf: seq<byte>, i: nat, b: byte)
    requires i < |buf| && b != buf[i]
    ensures Check(algorithm, buf[i := b]) != Check(algorithm, buf)
  {
    var front, rest := buf[..i], buf[i + 1..];
    assert buf == front + ([buf[i]] + rest);
    assert buf[i := b] == front + ([b] + rest);
    match algorithm
    case Crc8Maxim => CrcChangeDetected(front, buf[i], b, rest);
    case XorAll => XorChangeDetected(front, buf[i], b, rest);
    case SumAll => SumChangeDetected(front, buf[i], b, rest);
  }

  lemma XorOfOne(b: byte)
    ensures XorOf([b]) == b
  {
    assert [b][..0] == [];
    XorZero(b);
  }

  // ---------- bit parity ----------

  /** Number of one bits of a whole buffer, modulo two. */
  function BitParity(buf: seq<byte>): (p: nat)
    ensures p < 2
  {
    if buf == [] then 0 else if Parity(buf[0]) == BitParity(buf[1..]) then 0 else 1
  }

  lemma ShiftKeepsParity(c: byte)
    ensures Parity(Shift(c)) == Parity(c)
  {
    ParityStep(c);
    XorParity(c / 2, POLYNOMIAL);
    assert Parity(POLYNOMIAL) == 1 by {
      assert Parity(35) == 1;
    }
  }

  lemma {:induction false} ShiftTimesKeepsParity(c: byte, n: nat)
    ensures Parity(ShiftTimes(c, n)) == Parity(c)
    decreases n
  {
    if n > 0 {
      ShiftKeepsParity(c);
      ShiftTimesKeepsParity(Shift(c), n - 1);
    }
  }

  lemma {:induction false} CrcFromParity(c: byte, buf: seq<byte>)
    ensures Parity(CrcFrom(c, buf)) == if Parity(c) == BitParity(buf) then 0 else 1
    decreases buf
  {
    if buf != [] {
      XorParity(c, buf[0]);
      var x := XorByte(c, buf[0]);
      ShiftTimesKeepsParity(x, BITS);
      CrcFromParity(ShiftTimes(x, BITS), buf[1..]);
    }
  }

  /** The CRC has the bit parity of its input. */
  lemma CrcKeepsParity(buf: seq<byte>)
    ensures Parity(CrcOf(buf)) == BitParity(buf)
  {
    CrcFromParity(0, buf);
  }

  lemma {:induction false} BitParityXor(a: seq<byte>, b: seq<byte>)
    requires |a| == |b|
    ensures BitParity(XorBuffers(a, b)) == if BitParity(a) == BitParity(b) then 0 else 1
  {
    if a != [] {
      XorParity(a[0], b[0]);
      assert XorBuffers(a, b)[1..] == XorBuffers(a[1..], b[1..]);
      BitParityXor(a[1..], b[1..]);
    }
  }

  lemma {:induction false} BitParityAppend(a: seq<byte>, b: byte)
    ensures BitParity(a + [b]) == if BitParity(a) == Parity(b) then 0 else 1
  {
    if a == [] {
      assert a + [b] == [b];
      assert [b][1..] == [];
    } else {
      assert (a + [b])[1..] == a[1..] + [b];
      BitParityAppend(a[1..], b);
    }
  }

  /** An odd number of flipped bits, anywhere in data and CRC byte together, is always detected: the received CRC
      byte differs from the CRC of the received data. `flips` marks the flipped bits. */
  lemma OddBitFlipsDetected(data: seq<byte>, flips: seq<byte>)
    requires |flips| == |data| + 1 && BitParity(flips) == 1
    ensures
      var received := XorBuffers(data + [CrcOf(data)], flips);
      CrcOf(received[..|data|]) != received[|data|]
  {
    var sent := data + [CrcOf(data)];
    var received := XorBuffers(sent, flips);
    CrcKeepsParity(data);
    BitParityAppend(data, CrcOf(data));
    BitParityXor(sent, flips);
    assert received == received[..|data|] + [received[|data|]];
    BitParityAppend(received[..|data|], received[|data|]);
    CrcKeepsParity(received[..|data|]);
  }
}
