/** The proleptic Gregorian calendar of Date.UTC and the getUTC* functions, on day numbers counted from 1 January 1970
    (section 21.4.1 of ECMA-262). Months are numbered from 0, as there. */
module Calendar {

  predicate Leap(y: int)
  {
    y % 4 == 0 && (y % 100 != 0 || y % 400 == 0)
  }

  function DayFromYear(y: int): int
  {
    365 * (y - 1970) + (y - 1969) / 4 - (y - 1901) / 100 + (y - 1601) / 400
  }

  lemma YearLength(y: int)
    ensures DayFromYear(y + 1) - DayFromYear(y) == if Leap(y) then 366 else 365
  {
    Steps(y - 1969, 4);
    Steps(y - 1901, 100);
    Steps(y - 1601, 400);
  }

  /** Floor division steps up exactly at the multiples of the divisor. */
  lemma Steps(n: int, k: int)
    requires k > 0
    ensures (n + 1) / k - n / k == if (n + 1) % k == 0 then 1 else 0
  {
    var q, r := n / k, n % k;
    assert n == q * k + r;
    if r == k - 1 {
      assert n + 1 == (q + 1) * k;
      DivUnique(n + 1, k, q + 1, 0);
    } else {
      DivUnique(n + 1, k, q, r + 1);
    }
  }

  lemma DivUnique(n: int, k: int, q: int, r: int)
    requires k > 0 && n == q * k + r && 0 <= r < k
    ensures n / k == q && n % k == r
  {
    var d := n / k - q;
    assert d * k == r - n % k;
    MultipleBounds(d, k);
  }

  lemma MultipleBounds(d: int, k: int)
    requires k > 0
    ensures d >= 1 ==> d * k >= k
    ensures d <= -1 ==> d * k <= -k
  {
  }

  lemma {:induction false} YearsAscend(y: int, z: int)
    requires y < z
    ensures DayFromYear(y) < DayFromYear(z)
    decreases z - y
  {
    YearLength(z - 1);
    if y < z - 1 {
      YearsAscend(y, z - 1);
    }
  }

  function Distance(day: int, y: int): nat
  {
    if day < DayFromYear(y) then DayFromYear(y) - day
    else if day >= DayFromYear(y + 1) then day - DayFromYear(y + 1) + 1
    else 0
  }

  lemma Nearer(day: int, y: int)
    ensures day < DayFromYear(y) ==> Distance(day, y - 1) < Distance(day, y)
    ensures day >= DayFromYear(y + 1) ==> Distance(day, y + 1) < Distance(day, y)
  {
    YearLength(y);
    YearLength(y - 1);
    YearLength(y + 1);
    hide DayFromYear;
  }

  function YearFrom(day: int, y: int): (year: int)
    ensures DayFromYear(year) <= day < DayFromYear(year + 1)
    decreases Distance(day, y)
  {
    hide DayFromYear, Distance;
    Nearer(day, y);
    if day < DayFromYear(y) then YearFrom(day, y - 1)
    else if day >= DayFromYear(y + 1) then YearFrom(day, y + 1)
    else y
  }

  /** getUTCFullYear: the one year that contains the day. */
  function YearOf(day: int): (year: int)
    ensures DayFromYear(year) <= day < DayFromYear(year + 1)
  {
    YearFrom(day, 1970)
  }

  lemma YearUnique(day: int, y: int)
    requires DayFromYear(y) <= day < DayFromYear(y + 1)
    ensures YearOf(day) == y
  {
    var z := YearOf(day);
    if z < y {
      if z + 1 < y {
        YearsAscend(z + 1, y);
      }
    } else if y < z {
      if y + 1 < z {
        YearsAscend(y + 1, z);
      }
    }
  }

  /** Days of the year before the first of month m; m = 12 gives the length of the year. */
  function MonthStart(m: int, leap: bool): int
    requires 0 <= m <= 12
  {
    (if m == 0 then 0 else if m == 1 then 31 else if m == 2 then 59 else if m == 3 then 90
     else if m == 4 then 120 else if m == 5 then 151 else if m == 6 then 181 else if m == 7 then 212
     else if m == 8 then 243 else if m == 9 then 273 else if m == 10 then 304 else if m == 11 then 334 else 365)
    + if leap && m >= 2 then 1 else 0
  }

  function DaysInMonth(y: int, m: int): int
    requires 0 <= m < 12
  {
    MonthStart(m + 1, Leap(y)) - MonthStart(m, Leap(y))
  }

  function MonthIn(n: int, leap: bool): (m: int)
    requires 0 <= n < MonthStart(12, leap)
    ensures 0 <= m < 12
    ensures MonthStart(m, leap) <= n < MonthStart(m + 1, leap)
  {
    if n < MonthStart(1, leap) then 0
    else if n < MonthStart(2, leap) then 1
    else if n < MonthStart(3, leap) then 2
    else if n < MonthStart(4, leap) then 3
    else if n < MonthStart(5, leap) then 4
    else if n < MonthStart(6, leap) then 5
    else if n < MonthStart(7, leap) then 6
    else if n < MonthStart(8, leap) then 7
    else if n < MonthStart(9, leap) then 8
    else if n < MonthStart(10, leap) then 9
    else if n < MonthStart(11, leap) then 10
    else 11
  }

  datatype Date = Date(year: int, month: int, date: int)

  predicate RealDate(d: Date)
  {
    0 <= d.month < 12 && 1 <= d.date <= DaysInMonth(d.year, d.month)
  }

  /** The day part of Date.UTC: a date past the end of its month rolls over into the next. */
  function MakeDay(d: Date): int
    requires 0 <= d.month < 12
  {
    DayFromYear(d.year) + MonthStart(d.month, Leap(d.year)) + d.date - 1
  }

  function DateOf(day: int): (d: Date)
    ensures RealDate(d)
  {
    var y := YearOf(day);
    YearLength(y);
    var n := day - DayFromYear(y);
    var m := MonthIn(n, Leap(y));
    Date(y, m, n - MonthStart(m, Leap(y)) + 1)
  }

  lemma {:induction false} MonthsAscend(m: int, k: int, leap: bool)
    requires 0 <= m <= k <= 12
    ensures MonthStart(m, leap) <= MonthStart(k, leap)
    decreases k - m
  {
    if m < k {
      MonthsAscend(m, k - 1, leap);
    }
  }

  lemma MonthUnique(n: int, leap: bool, m: int)
    requires 0 <= m < 12 && MonthStart(m, leap) <= n < MonthStart(m + 1, leap)
    ensures 0 <= n < MonthStart(12, leap) && MonthIn(n, leap) == m
  {
    MonthsAscend(0, m, leap);
    MonthsAscend(m + 1, 12, leap);
    var k := MonthIn(n, leap);
    if k < m {
      MonthsAscend(k + 1, m, leap);
    } else if m < k {
      MonthsAscend(m + 1, k, leap);
    }
  }

  lemma DateToDay(day: int)
    ensures MakeDay(DateOf(day)) == day
  {
  }

  lemma DayToDate(d: Date)
    requires RealDate(d)
    ensures DateOf(MakeDay(d)) == d
  {
    var leap := Leap(d.year);
    var n := MonthStart(d.month, leap) + d.date - 1;
    YearLength(d.year);
    MonthUnique(n, leap, d.month);
    YearUnique(MakeDay(d), d.year);
  }

  /** Days and real dates are in one-to-one correspondence; MakeDay and DateOf are inverse to each other. */
  lemma CalendarRoundTrip(day: int, d: Date)
    requires 0 <= d.month < 12
    ensures MakeDay(DateOf(day)) == day
    ensures DateOf(MakeDay(d)) == d <==> RealDate(d)
  {
    DateToDay(day);
    if RealDate(d) {
      DayToDate(d);
    }
  }

  lemma MonthLengths(y: int, m: int)
    requires 0 <= m < 12
    ensures 28 <= DaysInMonth(y, m) <= 31
  {
  }
}

/** Device time, BCD[6] YYMMDDhhmmss, of server/src/protocol/bytes.js. An instant is milliseconds since 1970 UTC. */
module BcdTime {
  import opened Bytes
  import opened Calendar

  const MINUTE: int := 60000
  const HOUR: int := 3600000
  const DAY: int := 86400000

  /** Local calendar fields; the year is the full year. */
  datatype Fields = Fields(date: Date, hour: int, minute: int, second: int)

  predicate ClockInRange(f: Fields)
  {
    0 <= f.hour <= 23 && 0 <= f.minute <= 59 && 0 <= f.second <= 59
  }

  // ---------- calendar layer ----------

  function LocalMs(f: Fields): int
    requires 0 <= f.date.month < 12
  {
    MakeDay(f.date) * DAY + f.hour * HOUR + f.minute * MINUTE + f.second * 1000
  }

  function FieldsAt(local: int): (f: Fields)
    ensures RealDate(f.date)
  {
    var t := local % DAY;
    Fields(DateOf(local / DAY), t / HOUR, t / MINUTE % 60, t / 1000 % 60)
  }

  /** Dropping the milliseconds, as the encoding does. */
  function WholeSeconds(ms: int): int
  {
    ms - ms % 1000
  }

  lemma ClockOf(local: int)
    ensures ClockInRange(FieldsAt(local))
    ensures
      var t := local % DAY;
      t / HOUR * HOUR + t / MINUTE % 60 * MINUTE + t / 1000 % 60 * 1000 == t - local % 1000
  {
    var t := local % DAY;
    var s := t / 1000;
    assert t / MINUTE == s / 60 && t / HOUR == s / 3600;
    assert s / 3600 == s / 60 / 60;
    assert t % 1000 == local % 1000;
  }

  lemma FieldsToMs(local: int)
    ensures LocalMs(FieldsAt(local)) == WholeSeconds(local)
  {
    DateToDay(local / DAY);
    ClockOf(local);
  }

  lemma ClockFields(day: int, f: Fields, local: int)
    requires ClockInRange(f)
    requires local == day * DAY + f.hour * HOUR + f.minute * MINUTE + f.second * 1000
    ensures local / DAY == day
    ensures
      var t := local % DAY;
      t / HOUR == f.hour && t / MINUTE % 60 == f.minute && t / 1000 % 60 == f.second
  {
    var h, mi, s := f.hour, f.minute, f.second;
    var t := h * HOUR + mi * MINUTE + s * 1000;
    DivUnique(local, DAY, day, t);
    DivUnique(t, HOUR, h, mi * MINUTE + s * 1000);
    DivUnique(t, MINUTE, h * 60 + mi, s * 1000);
    DivUnique(h * 60 + mi, 60, h, mi);
    DivUnique(t, 1000, (h * 60 + mi) * 60 + s, 0);
    DivUnique((h * 60 + mi) * 60 + s, 60, h * 60 + mi, s);
  }

  /** Reading the clock at the instant of some fields gives them back, with the date rolled over if it is not real. */
  lemma MsToFields(f: Fields)
    requires 0 <= f.date.month < 12 && ClockInRange(f)
    ensures FieldsAt(LocalMs(f)) == f.(date := DateOf(MakeDay(f.date)))
  {
    ClockFields(MakeDay(f.date), f, LocalMs(f));
  }

  /** A date with at most 31 days, rolled over or not, stays in its year. */
  lemma YearKept(d: Date)
    requires 0 <= d.month < 12 && 1 <= d.date <= 31
    ensures DateOf(MakeDay(d)).year == d.year
  {
    YearLength(d.year);
    YearUnique(MakeDay(d), d.year);
  }

  // ---------- digit layer ----------

  /** The two decimal digits of a BCD byte. */
  function Field(b: byte): int
  {
    10 * (b / 16) + b % 16
  }

  datatype Parsed = Parsed(fields: Fields) | NotBcd | Zero | OutOfRange

  predicate InRange(buf: seq<byte>)
    requires |buf| == 6
  {
    && 1 <= Field(buf[1]) <= 12 && 1 <= Field(buf[2]) <= 31
    && Field(buf[3]) <= 23 && Field(buf[4]) <= 59 && Field(buf[5]) <= 59
  }

  function Parse(buf: seq<byte>): Parsed
  {
    if |buf| != 6 || !IsBcd(buf) then NotBcd
    else if forall i :: 0 <= i < 6 ==> buf[i] == 0 then Zero
    else if !InRange(buf) then OutOfRange
    else Parsed(Fields(Date(2000 + Field(buf[0]), Field(buf[1]) - 1, Field(buf[2])), Field(buf[3]), Field(buf[4]),
      Field(buf[5])))
  }

  /** String(p).padStart(2, '0'). */
  function TwoDigits(n: int): string
  {
    if n >= 0 then PadStart(Decimal(n), 2) else "-" + Decimal(-n)
  }

  /** parts.map(...).join(''). */
  function JoinDigits(parts: seq<int>): string
  {
    if parts == [] then "" else TwoDigits(parts[0]) + JoinDigits(parts[1..])
  }

  /** JavaScript's remainder keeps the sign of the year. */
  function YearField(y: int): int
  {
    if y >= 0 then y % 100 else -((-y) % 100)
  }

  function Parts(f: Fields): seq<int>
  {
    [YearField(f.date.year), f.date.month + 1, f.date.date, f.hour, f.minute, f.second]
  }

  function Unparse(f: Fields): Result<seq<byte>>
  {
    BcdBytes(JoinDigits(Parts(f)), 6)
  }

  function BcdOf(n: int): byte
    requires 0 <= n < 100
  {
    16 * (n / 10) + n % 10
  }

  lemma FieldOfBcd(n: int)
    requires 0 <= n < 100
    ensures IsBcdByte(BcdOf(n)) && Field(BcdOf(n)) == n
  {
    DivUnique(BcdOf(n), 16, n / 10, n % 10);
  }

  lemma BcdOfField(b: byte)
    requires IsBcdByte(b)
    ensures 0 <= Field(b) < 100 && BcdOf(Field(b)) == b
  {
    DivUnique(Field(b), 10, b / 16, b % 16);
  }

  lemma TwoDigitsAre(n: int)
    requires 0 <= n < 100
    ensures TwoDigits(n) == [DigitChar(n / 10), DigitChar(n % 10)]
  {
    assert Pow10(2) == 100 by {
      assert Pow10(1) == 10;
    }
    PadIsFixed(n, 2);
    assert FixedDigits(n / 10, 1) == [DigitChar(n / 10)];
  }

  function BcdAll(parts: seq<int>): (b: seq<byte>)
    requires forall i :: 0 <= i < |parts| ==> 0 <= parts[i] < 100
    ensures |b| == |parts|
  {
    seq(|parts|, i requires 0 <= i < |parts| => BcdOf(parts[i]))
  }

  lemma {:induction false} PackParts(parts: seq<int>)
    requires forall i :: 0 <= i < |parts| ==> 0 <= parts[i] < 100
    ensures
      var s := JoinDigits(parts);
      IsDigits(s) && |s| == 2 * |parts| && PackDigits(s) == BcdAll(parts)
  {
    if parts != [] {
      PackParts(parts[1..]);
      TwoDigitsAre(parts[0]);
      var s := JoinDigits(parts);
      assert s[2..] == JoinDigits(parts[1..]);
    }
  }

  lemma UnparseIs(f: Fields)
    requires 0 <= f.date.year && 0 <= f.date.month < 12 && 1 <= f.date.date <= 31 && ClockInRange(f)
    ensures Unparse(f) == Ok(BcdAll(Parts(f)))
  {
    PackParts(Parts(f));
  }

  lemma ParsePacked(p: seq<int>, buf: seq<byte>)
    requires |p| == 6 && (forall i :: 0 <= i < 6 ==> 0 <= p[i] < 100) && buf == BcdAll(p)
    requires 1 <= p[1] <= 12 && 1 <= p[2] <= 31 && p[3] <= 23 && p[4] <= 59 && p[5] <= 59
    ensures Parse(buf) == Parsed(Fields(Date(2000 + p[0], p[1] - 1, p[2]), p[3], p[4], p[5]))
  {
    forall i | 0 <= i < 6
      ensures IsBcdByte(buf[i]) && Field(buf[i]) == p[i]
    {
      FieldOfBcd(p[i]);
    }
    assert Field(buf[1]) == p[1] != 0;
    assert buf[1] != 0;
    hide BcdOf, Field, IsBcdByte;
    assert IsBcd(buf) && InRange(buf);
  }

  /** Digits written are read back, except that only the last two digits of the year are kept. */
  lemma ParseUnparsed(f: Fields)
    requires 0 <= f.date.year && 0 <= f.date.month < 12 && 1 <= f.date.date <= 31 && ClockInRange(f)
    ensures Unparse(f).Ok?
    ensures Parse(Unparse(f).value) == Parsed(f.(date := f.date.(year := 2000 + f.date.year % 100)))
  {
    hide Unparse, Parse, BcdAll;
    UnparseIs(f);
    ParsePacked(Parts(f), BcdAll(Parts(f)));
  }

  /** Fields read from a buffer are written back as that buffer. */
  lemma UnparseParsed(buf: seq<byte>)
    requires Parse(buf).Parsed?
    ensures Unparse(Parse(buf).fields) == Ok(buf)
  {
    hide Unparse, Field, BcdOf;
    var f := Parse(buf).fields;
    forall i | 0 <= i < 6
      ensures 0 <= Field(buf[i]) < 100 && BcdOf(Field(buf[i])) == buf[i]
    {
      BcdOfField(buf[i]);
    }
    ParsedShape(buf);
    UnparseIs(f);
    assert f.date.year == 2000 + Field(buf[0]);
    assert YearField(f.date.year) == Field(buf[0]);
    var parts := Parts(f);
    assert parts == [Field(buf[0]), Field(buf[1]), Field(buf[2]), Field(buf[3]), Field(buf[4]), Field(buf[5])];
    assert BcdAll(parts) == buf;
  }

  lemma ParsedShape(buf: seq<byte>)
    requires Parse(buf).Parsed?
    ensures
      var f := Parse(buf).fields;
      ClockInRange(f) && 2000 <= f.date.year <= 2099 && 0 <= f.date.month < 12 && 1 <= f.date.date <= 31
  {
    BcdOfField(buf[0]);
    BcdOfField(buf[3]);
    BcdOfField(buf[4]);
    BcdOfField(buf[5]);
  }

  // ---------- decodeBcdTime and encodeBcdTime ----------

  datatype Decoded = Instant(ms: int) | Invalid

  function DecodeBcdTime(buf: seq<byte>, tzOffsetMinutes: int): Decoded
  {
    match Parse(buf)
    case Parsed(f) => ParsedShape(buf); Instant(LocalMs(f) - tzOffsetMinutes * MINUTE)
    case _ => Invalid
  }

  function EncodeBcdTime(ms: int, tzOffsetMinutes: int): (r: Result<seq<byte>>)
    ensures r.Ok? ==> |r.value| == 6
  {
    Unparse(FieldsAt(ms + tzOffsetMinutes * MINUTE))
  }

  function LocalYear(ms: int, tzOffsetMinutes: int): int
  {
    FieldsAt(ms + tzOffsetMinutes * MINUTE).date.year
  }

  lemma SecondsOfLocal(ms: int, tzOffsetMinutes: int)
    ensures WholeSeconds(ms + tzOffsetMinutes * MINUTE) == WholeSeconds(ms) + tzOffsetMinutes * MINUTE
  {
    DivUnique(ms + tzOffsetMinutes * MINUTE, 1000, ms / 1000 + tzOffsetMinutes * 60, ms % 1000);
  }

  /** Whole seconds do not change the fields. */
  lemma FieldsOfWholeSeconds(local: int)
    ensures FieldsAt(WholeSeconds(local)) == FieldsAt(local)
  {
    FieldsToMs(local);
    ClockOf(local);
    MsToFields(FieldsAt(local));
    DayToDate(FieldsAt(local).date);
  }

  lemma FieldsOfDecoded(buf: seq<byte>, tzOffsetMinutes: int)
    requires DecodeBcdTime(buf, tzOffsetMinutes).Instant?
    ensures Parse(buf).Parsed? && 0 <= Parse(buf).fields.date.month < 12
    ensures DecodeBcdTime(buf, tzOffsetMinutes).ms + tzOffsetMinutes * MINUTE == LocalMs(Parse(buf).fields)
  {
    hide LocalMs, Parse;
    ParsedShape(buf);
  }

  /** Every decoded time falls in a local year 2000 to 2099. */
  lemma DecodedYear(buf: seq<byte>, tzOffsetMinutes: int)
    requires DecodeBcdTime(buf, tzOffsetMinutes).Instant?
    ensures 2000 <= LocalYear(DecodeBcdTime(buf, tzOffsetMinutes).ms, tzOffsetMinutes) <= 2099
  {
    hide LocalMs, FieldsAt, Parse, DecodeBcdTime, MakeDay, DateOf;
    FieldsOfDecoded(buf, tzOffsetMinutes);
    ParsedShape(buf);
    var f := Parse(buf).fields;
    MsToFields(f);
    YearKept(f.date);
  }

  /** Encoding and decoding again returns the instant truncated to whole seconds exactly when its local year is 2000
      to 2099, for every minute offset. */
  lemma TimeRoundTrip(ms: int, tzOffsetMinutes: int)
    ensures
      var encoded := EncodeBcdTime(ms, tzOffsetMinutes);
      (encoded.Ok? && DecodeBcdTime(encoded.value, tzOffsetMinutes) == Instant(WholeSeconds(ms)))
      <==> 2000 <= LocalYear(ms, tzOffsetMinutes) <= 2099
  {
    hide LocalMs, FieldsAt, Parse, Unparse, WholeSeconds, YearField;
    var local := ms + tzOffsetMinutes * MINUTE;
    var f := FieldsAt(local);
    var encoded := EncodeBcdTime(ms, tzOffsetMinutes);
    SecondsOfLocal(ms, tzOffsetMinutes);
    if 2000 <= f.date.year <= 2099 {
      ClockOf(local);
      MonthLengths(f.date.year, f.date.month);
      ParseUnparsed(f);
      FieldsToMs(local);
    } else if encoded.Ok? && DecodeBcdTime(encoded.value, tzOffsetMinutes) == Instant(WholeSeconds(ms)) {
      DecodedYear(encoded.value, tzOffsetMinutes);
      FieldsOfWholeSeconds(local);
      assert false;
    }
  }

  /** An accepted time encodes back to the same six bytes exactly when its day exists in its month: 31 February is
      accepted and rolls over, so it comes back as a day of March. */
  lemma BytesRoundTrip(buf: seq<byte>, tzOffsetMinutes: int)
    requires DecodeBcdTime(buf, tzOffsetMinutes).Instant?
    ensures EncodeBcdTime(DecodeBcdTime(buf, tzOffsetMinutes).ms, tzOffsetMinutes) == Ok(buf)
       <==> RealDate(Parse(buf).fields.date)
  {
    hide LocalMs, FieldsAt, Parse, Unparse, MakeDay, DateOf;
    ParsedShape(buf);
    UnparseParsed(buf);
    var f := Parse(buf).fields;
    var g := f.(date := DateOf(MakeDay(f.date)));
    MsToFields(f);
    CalendarRoundTrip(0, f.date);
    if g != f && Unparse(g) == Ok(buf) {
      YearKept(f.date);
      MonthLengths(g.date.year, g.date.month);
      ParseUnparsed(g);
      assert false;
    }
  }

  const FEB31: seq<byte> := [0x26, 0x02, 0x31, 0x00, 0x00, 0x00]

  lemma ParseFeb31()
    ensures Parse(FEB31) == Parsed(Fields(Date(2026, 1, 31), 0, 0, 0))
  {
    hide Parse;
    var parts := [26, 2, 31, 0, 0, 0];
    assert BcdAll(parts) == FEB31;
    ParsePacked(parts, FEB31);
  }

  /** 31 February 2026 is accepted, and does not come back. */
  lemma ThirtyFirstOfFebruary()
    ensures
      var decoded := DecodeBcdTime(FEB31, 480);
      decoded.Instant? && EncodeBcdTime(decoded.ms, 480) != Ok(FEB31)
  {
    hide LocalMs, FieldsAt, Parse, EncodeBcdTime, LocalYear;
    ParseFeb31();
    BytesRoundTrip(FEB31, 480);
  }
}
