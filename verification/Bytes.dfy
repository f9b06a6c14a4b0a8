/** Primitive encodings of server/src/protocol/bytes.js: big-endian words, BCD and decimal digit strings,
    together with bitwise exclusive-or on naturals. */
module Bytes {

  type byte = b: int | 0 <= b < 0x100
  type word = w: int | 0 <= w < 0x1_0000
  type dword = d: int | 0 <= d < 0x1_0000_0000

  datatype Option<+T> = None | Some(value: T)

  /** A result or the code of the ProtocolError the source throws. */
  datatype Result<+T> = Ok(value: T) | Err(code: string)

  // ---------- big-endian words ----------

  function WordBytes(w: word): (b: seq<byte>)
    ensures |b| == 2
  {
    [w / 0x100, w % 0x100]
  }

  function ReadWord(b: seq<byte>, i: nat): word
    requires i + 2 <= |b|
  {
    0x100 * (b[i] as int) + b[i + 1]
  }

  function DwordBytes(d: dword): (b: seq<byte>)
    ensures |b| == 4
  {
    WordBytes(d / 0x1_0000) + WordBytes(d % 0x1_0000)
  }

  function ReadDword(b: seq<byte>, i: nat): dword
    requires i + 4 <= |b|
  {
    ReadWord(b, i) * 0x1_0000 + ReadWord(b, i + 2)
  }

  /** Writing a word and reading it back, and reading a word and writing it back, are both the identity. */
  lemma WordRoundTrip(w: word, b: seq<byte>)
    requires |b| == 2
    ensures ReadWord(WordBytes(w), 0) == w
    ensures WordBytes(ReadWord(b, 0)) == b
  {
    var v := 0x100 * (b[0] as int) + b[1];
    assert v / 0x100 == b[0] && v % 0x100 == b[1];
  }

  lemma DwordRoundTrip(d: dword)
    ensures ReadDword(DwordBytes(d), 0) == d
  {
    var b := DwordBytes(d);
    assert 0x100 * (b[0] as int) + b[1] == d / 0x1_0000;
    assert 0x100 * (b[2] as int) + b[3] == d % 0x1_0000;
  }

  // ---------- exclusive or ----------

  /** Bitwise exclusive or of two naturals, lowest bit first. */
  function Xor(a: nat, b: nat): nat
  {
    if a == 0 && b == 0 then 0 else (if a % 2 == b % 2 then 0 else 1) + 2 * Xor(a / 2, b / 2)
  }

  lemma {:induction false} XorStep(a: nat, b: nat)
    ensures Xor(a, b) % 2 == if a % 2 == b % 2 then 0 else 1
    ensures Xor(a, b) / 2 == Xor(a / 2, b / 2)
  {
  }

  /** Bit k of n, counted from the lowest. */
  predicate Bit(n: nat, k: nat)
  {
    if k == 0 then n % 2 == 1 else Bit(n / 2, k - 1)
  }

  /** The defining property: a bit of the result is set exactly where the operands differ. */
  lemma {:induction false} XorBit(a: nat, b: nat, k: nat)
    ensures Bit(Xor(a, b), k) <==> Bit(a, k) != Bit(b, k)
  {
    XorStep(a, b);
    if k > 0 {
      XorBit(a / 2, b / 2, k - 1);
    }
  }

  lemma SameHalves(x: nat, y: nat)
    requires x % 2 == y % 2 && x / 2 == y / 2
    ensures x == y
  {
  }

  lemma XorComm(a: nat, b: nat)
    ensures Xor(a, b) == Xor(b, a)
  {
  }

  lemma XorSelf(a: nat)
    ensures Xor(a, a) == 0
  {
  }

  lemma XorZero(a: nat)
    ensures Xor(a, 0) == a && Xor(0, a) == a
  {
  }

  lemma {:induction false} XorAssoc(a: nat, b: nat, c: nat)
    ensures Xor(Xor(a, b), c) == Xor(a, Xor(b, c))
    decreases a + b + c
  {
    if a + b + c > 0 {
      XorStep(a, b);
      XorStep(b, c);
      XorStep(Xor(a, b), c);
      XorStep(a, Xor(b, c));
      XorAssoc(a / 2, b / 2, c / 2);
      SameHalves(Xor(Xor(a, b), c), Xor(a, Xor(b, c)));
    }
  }

  function Pow2(k: nat): (p: nat)
    ensures p >= 1
  {
    if k == 0 then 1 else 2 * Pow2(k - 1)
  }

  lemma {:induction false} XorBound(a: nat, b: nat, k: nat)
    requires a < Pow2(k) && b < Pow2(k)
    ensures Xor(a, b) < Pow2(k)
  {
    if k > 0 {
      XorBound(a / 2, b / 2, k - 1);
    }
  }

  function XorByte(a: byte, b: byte): byte
  {
    assert Pow2(8) == 0x100 by {
      assert Pow2(4) == 16;
    }
    XorBound(a, b, 8);
    Xor(a, b)
  }

  /** Exclusive or with a fixed operand loses nothing. */
  lemma XorCancel(a: nat, b: nat, c: nat)
    requires Xor(a, c) == Xor(b, c)
    ensures a == b
  {
    XorAssoc(a, c, c);
    XorAssoc(b, c, c);
    XorSelf(c);
    XorZero(a);
    XorZero(b);
  }

  lemma XorIsZero(a: nat, b: nat)
    ensures Xor(a, b) == 0 <==> a == b
  {
    XorSelf(b);
    if Xor(a, b) == 0 {
      XorCancel(a, b, b);
    }
  }

  /** (a ^ b) ^ (c ^ d) regrouped as (a ^ c) ^ (b ^ d). */
  lemma XorSwap(a: nat, b: nat, c: nat, d: nat)
    ensures Xor(Xor(a, b), Xor(c, d)) == Xor(Xor(a, c), Xor(b, d))
  {
    XorAssoc(a, b, Xor(c, d));
    XorAssoc(b, c, d);
    XorComm(b, c);
    XorAssoc(c, b, d);
    XorAssoc(a, c, Xor(b, d));
  }

  /** Number of one bits modulo two. */
  function Parity(n: nat): (p: nat)
    ensures p < 2
  {
    if n == 0 then 0 else if n % 2 == Parity(n / 2) then 0 else 1
  }

  lemma {:induction false} ParityStep(n: nat)
    ensures Parity(n) == if n % 2 == Parity(n / 2) then 0 else 1
  {
  }

  lemma {:induction false} XorParity(a: nat, b: nat)
    ensures Parity(Xor(a, b)) == if Parity(a) == Parity(b) then 0 else 1
    decreases a + b
  {
    if a + b > 0 {
      XorStep(a, b);
      XorParity(a / 2, b / 2);
      ParityStep(a);
      ParityStep(b);
      ParityStep(Xor(a, b));
    }
  }

  // ---------- decimal digit strings ----------

  predicate IsDigit(c: char)
  {
    '0' <= c <= '9'
  }

  /** The test of the regular expression ^\d*$. */
  predicate IsDigits(s: string)
  {
    forall i :: 0 <= i < |s| ==> IsDigit(s[i])
  }

  function DigitValue(c: char): (d: int)
    requires IsDigit(c)
    ensures 0 <= d <= 9
  {
    c as int - '0' as int
  }

  function DigitChar(d: int): (c: char)
    requires 0 <= d <= 9
    ensures IsDigit(c) && DigitValue(c) == d
  {
    ('0' as int + d) as char
  }

  /** Number(s) for a string of decimal digits. */
  function Value(s: string): nat
    requires IsDigits(s)
  {
    if s == "" then 0 else 10 * Value(s[..|s| - 1]) + DigitValue(s[|s| - 1])
  }

  /** String(n). */
  function Decimal(n: nat): (s: string)
    ensures IsDigits(s) && |s| >= 1
  {
    if n < 10 then [DigitChar(n)] else Decimal(n / 10) + [DigitChar(n % 10)]
  }

  function Zeros(n: nat): (s: string)
    ensures |s| == n && IsDigits(s)
  {
    seq(n, i => '0')
  }

  /** s.padStart(width, '0'). */
  function PadStart(s: string, width: nat): (p: string)
    ensures |p| == if |s| < width then width else |s|
  {
    if |s| < width then Zeros(width - |s|) + s else s
  }

  function Pow10(k: nat): (p: nat)
    ensures p >= 1
  {
    if k == 0 then 1 else 10 * Pow10(k - 1)
  }

  /** The last `width` decimal digits of n. */
  function FixedDigits(n: nat, width: nat): (s: string)
    ensures |s| == width && IsDigits(s)
  {
    if width == 0 then "" else FixedDigits(n / 10, width - 1) + [DigitChar(n % 10)]
  }

  lemma {:induction false} FixedZero(width: nat)
    ensures FixedDigits(0, width) == Zeros(width)
  {
    if width > 0 {
      FixedZero(width - 1);
    }
  }

  /** Padding a number that fits gives exactly its fixed-width digits. */
  lemma {:induction false} PadIsFixed(n: nat, width: nat)
    requires 0 < width && n < Pow10(width)
    ensures PadStart(Decimal(n), width) == FixedDigits(n, width)
  {
    if n < 10 {
      FixedZero(width - 1);
      assert FixedDigits(n, width) == Zeros(width - 1) + [DigitChar(n)];
      if width == 1 {
        assert Zeros(0) == "";
      }
    } else {
      assert width > 1;
      PadIsFixed(n / 10, width - 1);
      var d := Decimal(n / 10);
      assert Decimal(n) == d + [DigitChar(n % 10)];
      if |d| < width - 1 {
        assert Zeros(width - |d| - 1) + (d + [DigitChar(n % 10)]) == (Zeros(width - 1 - |d|) + d) + [DigitChar(n % 10)];
      }
    }
  }

  lemma {:induction false} FixedOfValue(s: string)
    requires IsDigits(s)
    ensures Value(s) < Pow10(|s|)
    ensures FixedDigits(Value(s), |s|) == s
  {
    if s != "" {
      var t := s[..|s| - 1];
      FixedOfValue(t);
      assert Value(s) / 10 == Value(t) && Value(s) % 10 == DigitValue(s[|s| - 1]);
      assert s == t + [s[|s| - 1]];
    }
  }

  lemma {:induction false} ValueOfFixed(n: nat, width: nat)
    requires n < Pow10(width)
    ensures Value(FixedDigits(n, width)) == n
  {
    if width > 0 {
      ValueOfFixed(n / 10, width - 1);
      var f := FixedDigits(n, width);
      assert f[..width - 1] == FixedDigits(n / 10, width - 1);
    }
  }

  /** A number written with leading zeros reads back unchanged, and a digit string is restored by padding its value. */
  lemma DigitsRoundTrip(s: string)
    requires IsDigits(s) && s != ""
    ensures Value(s) < Pow10(|s|)
    ensures PadStart(Decimal(Value(s)), |s|) == s
  {
    FixedOfValue(s);
    PadIsFixed(Value(s), |s|);
  }

  // ---------- BCD ----------

  predicate IsBcdByte(b: byte)
  {
    b / 16 <= 9 && b % 16 <= 9
  }

  predicate IsBcd(b: seq<byte>)
  {
    forall i :: 0 <= i < |b| ==> IsBcdByte(b[i])
  }

  /** Packs an even number of decimal digits two to a byte. */
  function PackDigits(s: string): (b: seq<byte>)
    requires IsDigits(s) && |s| % 2 == 0
    ensures |b| == |s| / 2
  {
    if s == "" then [] else [16 * DigitValue(s[0]) + DigitValue(s[1])] + PackDigits(s[2..])
  }

  /** bcdEncode: digits only, at most two per byte, padded on the left with zeros. */
  function BcdBytes(s: string, length: nat): (r: Result<seq<byte>>)
    ensures r.Ok? <==> IsDigits(s) && |s| <= 2 * length
    ensures r.Ok? ==> |r.value| == length
  {
    if !IsDigits(s) || |s| > 2 * length then Err("BAD_BCD")
    else
      assert IsDigits(PadStart(s, 2 * length));
      Ok(PackDigits(PadStart(s, 2 * length)))
  }

  function NibbleChar(n: int): char
    requires 0 <= n < 16
  {
    if n < 10 then DigitChar(n) else ('A' as int + (n - 10)) as char
  }

  function NibbleValue(c: char): int
  {
    if IsDigit(c) then DigitValue(c) else c as int - 'A' as int + 10
  }

  /** bcdDecode and toHex: every nibble as an upper-case hexadecimal digit. */
  function HexText(b: seq<byte>): (s: string)
    ensures |s| == 2 * |b|
  {
    if b == [] then "" else [NibbleChar(b[0] / 16), NibbleChar(b[0] % 16)] + HexText(b[1..])
  }

  /** The text of a buffer determines the buffer, so the terminal ID text loses nothing. */
  lemma {:induction false} HexTextInjective(a: seq<byte>, b: seq<byte>)
    requires HexText(a) == HexText(b)
    ensures a == b
  {
    if a == [] || b == [] {
      assert |a| == |b|;
    } else {
      assert HexText(a)[0] == HexText(b)[0] && HexText(a)[1] == HexText(b)[1];
      assert NibbleValue(NibbleChar(a[0] / 16)) == a[0] / 16 && NibbleValue(NibbleChar(b[0] / 16)) == b[0] / 16;
      assert NibbleValue(NibbleChar(a[0] % 16)) == a[0] % 16 && NibbleValue(NibbleChar(b[0] % 16)) == b[0] % 16;
      assert a[0] == b[0];
      assert HexText(a)[2..] == HexText(a[1..]);
      assert HexText(b)[2..] == HexText(b[1..]);
      HexTextInjective(a[1..], b[1..]);
      assert a == [a[0]] + a[1..];
      assert b == [b[0]] + b[1..];
    }
  }

  lemma {:induction false} PackThenText(s: string)
    requires IsDigits(s) && |s| % 2 == 0
    ensures IsBcd(PackDigits(s))
    ensures HexText(PackDigits(s)) == s
  {
    if s != "" {
      PackThenText(s[2..]);
      var b := 16 * DigitValue(s[0]) + DigitValue(s[1]);
      assert b / 16 == DigitValue(s[0]) && b % 16 == DigitValue(s[1]);
      assert PackDigits(s)[1..] == PackDigits(s[2..]);
      assert s == [s[0], s[1]] + s[2..];
    }
  }

  lemma {:induction false} TextThenPack(b: seq<byte>)
    requires IsBcd(b)
    ensures IsDigits(HexText(b))
    ensures PackDigits(HexText(b)) == b
  {
    if b != [] {
      TextThenPack(b[1..]);
      var s := HexText(b);
      assert s[2..] == HexText(b[1..]);
      assert forall i :: 2 <= i < |s| ==> s[i] == s[2..][i - 2];
      assert b == [b[0]] + b[1..];
    }
  }

  /** BCD round trip in both directions: encoding then decoding gives the padded digits back, and the text of any
      valid BCD buffer encodes to that buffer. */
  lemma BcdRoundTrip(s: string, b: seq<byte>, length: nat)
    requires IsDigits(s) && |s| <= 2 * length
    requires IsBcd(b)
    ensures HexText(BcdBytes(s, length).value) == PadStart(s, 2 * length)
    ensures IsBcd(BcdBytes(s, length).value)
    ensures BcdBytes(HexText(b), |b|) == Ok(b)
  {
    assert IsDigits(PadStart(s, 2 * length));
    PackThenText(PadStart(s, 2 * length));
    TextThenPack(b);
  }

  /** isValidBcd. */
  method IsValidBcd(buf: seq<byte>) returns (valid: bool)
    ensures valid <==> IsBcd(buf)
  {
    for i := 0 to |buf|
      invariant forall k :: 0 <= k < i ==> IsBcdByte(buf[k])
    {
      if buf[i] / 16 > 9 || buf[i] % 16 > 9 {
        return false;
      }
    }
    return true;
  }

  lemma {:induction false} HexTextAppend(a: seq<byte>, x: byte)
    ensures HexText(a + [x]) == HexText(a) + [NibbleChar(x / 16), NibbleChar(x % 16)]
  {
    if a == [] {
      assert a + [x] == [x];
      assert HexText([x]) == [NibbleChar(x / 16), NibbleChar(x % 16)] + HexText([x][1..]);
    } else {
      HexTextAppend(a[1..], x);
      assert (a + [x])[1..] == a[1..] + [x];
    }
  }

  /** bcdDecode: appends two characters a byte. */
  method BcdDecode(buf: seq<byte>) returns (s: string)
    ensures s == HexText(buf)
  {
    s := "";
    for i := 0 to |buf|
      invariant s == HexText(buf[..i])
    {
      HexTextAppend(buf[..i], buf[i]);
      assert buf[..i + 1] == buf[..i] + [buf[i]];
      s := s + [NibbleChar(buf[i] / 16), NibbleChar(buf[i] % 16)];
    }
    assert buf[..|buf|] == buf;
  }

  lemma {:induction false} PackDigitsAt(s: string, i: nat)
    requires IsDigits(s) && |s| % 2 == 0 && 2 * i < |s|
    ensures PackDigits(s)[i] == 16 * DigitValue(s[2 * i]) + DigitValue(s[2 * i + 1])
  {
    if i > 0 {
      PackDigitsAt(s[2..], i - 1);
    }
  }

  /** bcdEncode: fills a preallocated buffer. */
  method BcdEncode(digits: string, length: nat) returns (r: Result<seq<byte>>)
    ensures r == BcdBytes(digits, length)
  {
    if !IsDigits(digits) || |digits| > 2 * length {
      return Err("BAD_BCD");
    }
    var padded := PadStart(digits, 2 * length);
    assert IsDigits(padded);
    var out := new byte[length](_ => 0);
    for i := 0 to length
      invariant out[..i] == PackDigits(padded)[..i]
    {
      PackDigitsAt(padded, i);
      out[i] := 16 * DigitValue(padded[2 * i]) + DigitValue(padded[2 * i + 1]);
    }
    assert out[..length] == out[..] && PackDigits(padded)[..length] == PackDigits(padded);
    return Ok(out[..]);
  }
}
