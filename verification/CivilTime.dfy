/** UTC timestamps by their calendar fields, as Go's time package formats and compares them. */
module CivilTime {
  import opened Bytes
  import opened Decimal

  datatype Civil = Civil(year: nat, month: nat, day: nat, hour: nat, minute: nat, second: nat, nano: nat)

  predicate Leap(year: nat) {
    year % 4 == 0 && (year % 100 != 0 || year % 400 == 0)
  }

  function DaysIn(year: nat, month: nat): (n: nat)
    ensures 28 <= n <= 31
  {
    if month == 2 then (if Leap(year) then 29 else 28)
    else if month in {4, 6, 9, 11} then 30
    else 31
  }

  predicate ValidCivil(c: Civil) {
    && c.year <= 9999 && 1 <= c.month <= 12 && 1 <= c.day <= DaysIn(c.year, c.month)
    && c.hour < 24 && c.minute < 60 && c.second < 60 && c.nano < 1000000000
  }

  /** An instant in UTC, in the years RFC 3339 can write. */
  type Time = c: Civil | ValidCivil(c) witness Civil(1970, 1, 1, 0, 0, 0, 0)

  /** Months counted from January of year 0; a chain is keyed by one. */
  type Month = m: nat | m < 120000

  function MonthOf(t: Time): Month {
    t.year * 12 + (t.month - 1)
  }

  function MonthStart(m: Month): Time {
    Civil(m / 12, m % 12 + 1, 1, 0, 0, 0, 0)
  }

  function TruncateMicro(t: Time): Time {
    t.(nano := t.nano - t.nano % 1000)
  }

  /** What formatting with whole seconds and parsing again leaves of an instant. */
  function WholeSecond(t: Time): Time {
    t.(nano := 0)
  }

  /** One microsecond before the next month starts. */
  function MonthLastMicro(m: Month): Time {
    Civil(m / 12, m % 12 + 1, DaysIn(m / 12, m % 12 + 1), 23, 59, 59, 999999000)
  }

  /** A number that orders instants: the calendar fields in mixed radix. */
  function Ticks(t: Time): int {
    ((((MonthOf(t) * 31 + (t.day - 1)) * 24 + t.hour) * 60 + t.minute) * 60 + t.second) * 1000000000 + t.nano
  }

  /** The number tells all instants apart. */
  lemma TicksInjective(a: Time, b: Time)
    requires Ticks(a) == Ticks(b)
    ensures a == b
  {
    TicksSplit(a);
    TicksSplit(b);
  }

  lemma Divide(q: int, r: int)
    ensures 0 <= r < 24 ==> (q * 24 + r) / 24 == q && (q * 24 + r) % 24 == r
    ensures 0 <= r < 31 ==> (q * 31 + r) / 31 == q && (q * 31 + r) % 31 == r
    ensures 0 <= r < 60 ==> (q * 60 + r) / 60 == q && (q * 60 + r) % 60 == r
    ensures 0 <= r < 1000000000 ==> (q * 1000000000 + r) / 1000000000 == q && (q * 1000000000 + r) % 1000000000 == r
  {
  }

  /** Every field can be read off the number. */
  lemma TicksSplit(t: Time)
    ensures var s := Ticks(t) / 1000000000;
            var m := s / 60; var h := m / 60; var d := h / 24;
            && Ticks(t) % 1000000000 == t.nano && s % 60 == t.second && m % 60 == t.minute && h % 24 == t.hour
            && d % 31 == t.day - 1 && d / 31 == MonthOf(t)
  {
    var d := MonthOf(t) * 31 + (t.day - 1);
    var h := d * 24 + t.hour;
    var m := h * 60 + t.minute;
    Divide(m * 60 + t.second, t.nano);
    Divide(m, t.second);
    Divide(h, t.minute);
    Divide(d, t.hour);
    Divide(MonthOf(t), t.day - 1);
  }

  /** Strictly inside the last second of its month. */
  predicate LateInMonth(t: Time) {
    && t.day == DaysIn(t.year, t.month) && t.hour == 23 && t.minute == 59 && t.second == 59
    && t.nano > 0
  }

  /** A window from the start of a month to its last instant cut to whole seconds holds exactly that
      month's instants minus those strictly inside its last second. */
  lemma MonthWindow(t: Time, m: Month)
    ensures Ticks(MonthStart(m)) <= Ticks(t) <= Ticks(WholeSecond(MonthLastMicro(m)))
            <==> MonthOf(t) == m && !LateInMonth(t)
  {
    var d := MonthOf(t) * 31 + (t.day - 1);
    var s := ((d * 24 + t.hour) * 60 + t.minute) * 60 + t.second;
    var last := m * 31 + (DaysIn(m / 12, m % 12 + 1) - 1);
    assert MonthOf(MonthStart(m)) == m && MonthOf(MonthLastMicro(m)) == m;
    assert 0 <= s - d * 86400 < 86400;
    if MonthOf(t) == m {
      assert t.year == m / 12 && t.month == m % 12 + 1;
    }
  }

  // ---- text ----

  const LETTER_T: Byte := 0x54
  const LETTER_Z: Byte := 0x5A

  /** The "2006-01" label of a month. */
  function MonthLabel(m: Month): Bytes {
    Padded(m / 12, 4) + ([DASH] + Padded(m % 12 + 1, 2))
  }

  function DropZeros(s: Bytes): Bytes {
    if s != [] && s[|s| - 1] == ZERO then DropZeros(s[..|s| - 1]) else s
  }

  function Fraction(nano: nat): Bytes {
    if nano == 0 then [] else [DOT] + DropZeros(Padded(nano, 9))
  }

  /** time.RFC3339Nano in UTC. */
  function Format(t: Time): Bytes {
    Padded(t.year, 4) + ([DASH] + (Padded(t.month, 2) + ([DASH] + (Padded(t.day, 2) + ([LETTER_T] + ClockText(t))))))
  }

  function ClockText(t: Time): Bytes {
    Padded(t.hour, 2) + ([COLON] + (Padded(t.minute, 2) + ([COLON] + (Padded(t.second, 2) + FractionText(t)))))
  }

  function FractionText(t: Time): Bytes {
    Fraction(t.nano) + [LETTER_Z]
  }

  function Zeros(n: nat): Bytes {
    seq(n, _ => ZERO)
  }

  function ReadFraction(s: Bytes): int {
    if |s| <= 2 then 0
    else
      var digits := s[1..|s| - 1];
      if |digits| <= 9 then Value(digits + Zeros(9 - |digits|)) else 0
  }

  /** The calendar fields read back from formatted text. */
  function ReadFields(s: Bytes): seq<int> {
    if |s| < 20 then []
    else [Value(s[..4]), Value(s[5..7]), Value(s[8..10]), Value(s[11..13]), Value(s[14..16]), Value(s[17..19]),
          ReadFraction(s[19..])]
  }

  function FieldsOf(t: Time): seq<int> {
    [t.year, t.month, t.day, t.hour, t.minute, t.second, t.nano]
  }

  lemma {:induction false} DropZerosPads(s: Bytes)
    ensures |DropZeros(s)| <= |s| && DropZeros(s) + Zeros(|s| - |DropZeros(s)|) == s
    ensures (forall b | b in s :: IsDigit(b)) ==> forall b | b in DropZeros(s) :: IsDigit(b)
  {
    if s != [] && s[|s| - 1] == ZERO {
      var t := s[..|s| - 1];
      DropZerosPads(t);
      assert s == t + [ZERO];
    }
  }

  lemma FractionRead(nano: nat)
    requires nano < 1000000000
    ensures ReadFraction(Fraction(nano) + [LETTER_Z]) == nano
    ensures NoControl(Fraction(nano))
  {
    if nano > 0 {
      Widths();
      PaddedValue(nano, 9);
      DropZerosPads(Padded(nano, 9));
      var s := Fraction(nano) + [LETTER_Z];
      var digits := DropZeros(Padded(nano, 9));
      assert s[1..|s| - 1] == digits;
      if digits == [] {
        assert Padded(nano, 9) == Zeros(9);
        ZerosValue(9);
      }
    }
  }

  lemma {:induction false} ZerosValue(n: nat)
    ensures Value(Zeros(n)) == 0
  {
    if n == 0 {
    } else {
      ZerosValue(n - 1);
      assert Zeros(n)[..n - 1] == Zeros(n - 1);
    }
  }

  lemma FieldFirst(p: Bytes, b: Byte, r: Bytes)
    ensures (p + ([b] + r))[..|p|] == p && (p + ([b] + r))[|p| + 1..] == r
  {
  }

  lemma PaddedFields(t: Time)
    ensures Value(Padded(t.year, 4)) == t.year && |Padded(t.year, 4)| == 4
    ensures Value(Padded(t.month, 2)) == t.month && |Padded(t.month, 2)| == 2
    ensures Value(Padded(t.day, 2)) == t.day && |Padded(t.day, 2)| == 2
    ensures Value(Padded(t.hour, 2)) == t.hour && |Padded(t.hour, 2)| == 2
    ensures Value(Padded(t.minute, 2)) == t.minute && |Padded(t.minute, 2)| == 2
    ensures Value(Padded(t.second, 2)) == t.second && |Padded(t.second, 2)| == 2
  {
    Widths();
    PaddedValue(t.year, 4);
    PaddedValue(t.month, 2);
    PaddedValue(t.day, 2);
    PaddedValue(t.hour, 2);
    PaddedValue(t.minute, 2);
    PaddedValue(t.second, 2);
  }

  lemma MinuteRead(t: Time, d: Bytes)
    requires d == Padded(t.minute, 2) + ([COLON] + (Padded(t.second, 2) + FractionText(t)))
    ensures |d| >= 6 && Value(d[..2]) == t.minute && Value(d[3..5]) == t.second && d[5..] == FractionText(t)
  {
    PaddedFields(t);
    var e := Padded(t.second, 2) + FractionText(t);
    FieldFirst(Padded(t.minute, 2), COLON, e);
    assert d[3..] == e && d[3..5] == e[..2] && d[5..] == e[2..];
  }

  lemma ClockRead(t: Time, c: Bytes)
    requires c == ClockText(t)
    ensures |c| >= 9 && Value(c[..2]) == t.hour && Value(c[3..5]) == t.minute && Value(c[6..8]) == t.second
    ensures c[8..] == FractionText(t)
  {
    PaddedFields(t);
    var d := Padded(t.minute, 2) + ([COLON] + (Padded(t.second, 2) + FractionText(t)));
    FieldFirst(Padded(t.hour, 2), COLON, d);
    MinuteRead(t, d);
    assert c[3..] == d && c[3..5] == d[..2] && c[6..8] == d[3..5] && c[8..] == d[5..];
  }

  lemma MonthDayRead(t: Time, a: Bytes, c: Bytes)
    requires a == Padded(t.month, 2) + ([DASH] + (Padded(t.day, 2) + ([LETTER_T] + c)))
    ensures |a| == 6 + |c| && a[6..] == c && Value(a[..2]) == t.month && Value(a[3..5]) == t.day
  {
    PaddedFields(t);
    var b := Padded(t.day, 2) + ([LETTER_T] + c);
    FieldFirst(Padded(t.month, 2), DASH, b);
    FieldFirst(Padded(t.day, 2), LETTER_T, c);
    assert a[3..] == b && a[3..5] == b[..2] && a[6..] == b[3..];
  }

  lemma DateRead(t: Time, s: Bytes, c: Bytes)
    requires s == Padded(t.year, 4) + ([DASH] + (Padded(t.month, 2) + ([DASH] + (Padded(t.day, 2) + ([LETTER_T] + c)))))
    ensures |s| == 11 + |c| && s[11..] == c
    ensures Value(s[..4]) == t.year && Value(s[5..7]) == t.month && Value(s[8..10]) == t.day
  {
    PaddedFields(t);
    var a := Padded(t.month, 2) + ([DASH] + (Padded(t.day, 2) + ([LETTER_T] + c)));
    FieldFirst(Padded(t.year, 4), DASH, a);
    MonthDayRead(t, a, c);
    assert s[5..] == a && s[5..7] == a[..2] && s[8..10] == a[3..5] && s[11..] == a[6..];
  }

  /** Formatting loses nothing. */
  lemma TimeRoundTrip(t: Time)
    ensures ReadFields(Format(t)) == FieldsOf(t)
  {
    var s, c := Format(t), ClockText(t);
    DateRead(t, s, c);
    ClockRead(t, c);
    assert s[11..13] == c[..2] && s[14..16] == c[3..5] && s[17..19] == c[6..8] && s[19..] == c[8..];
    FractionRead(t.nano);
  }

  /** Printable ASCII. */
  predicate Plain(s: Bytes) {
    forall b | b in s :: 0x20 <= b < 0x80
  }

  lemma PlainField(p: Bytes, b: Byte, r: Bytes)
    requires Plain(p) && 0x20 <= b < 0x80 && Plain(r)
    ensures Plain(p + ([b] + r))
  {
  }

  lemma PaddedPlain(n: nat, width: nat)
    ensures Plain(Padded(n, width))
  {
  }

  lemma FormatPlain(t: Time)
    ensures Plain(Format(t))
  {
    Widths();
    PaddedValue(t.nano, 9);
    DropZerosPads(Padded(t.nano, 9));
    PaddedPlain(t.second, 2);
    var f := Padded(t.second, 2) + FractionText(t);
    assert Plain(f);
    PaddedPlain(t.minute, 2);
    PaddedPlain(t.hour, 2);
    PlainField(Padded(t.minute, 2), COLON, f);
    PlainField(Padded(t.hour, 2), COLON, Padded(t.minute, 2) + ([COLON] + f));
    PaddedPlain(t.day, 2);
    PaddedPlain(t.month, 2);
    PaddedPlain(t.year, 4);
    var b := Padded(t.day, 2) + ([LETTER_T] + ClockText(t));
    PlainField(Padded(t.day, 2), LETTER_T, ClockText(t));
    PlainField(Padded(t.month, 2), DASH, b);
    PlainField(Padded(t.year, 4), DASH, Padded(t.month, 2) + ([DASH] + b));
  }

  /** One label per month. */
  lemma LabelInjective(m: Month, n: Month)
    requires MonthLabel(m) == MonthLabel(n)
    ensures m == n
  {
    Widths();
    PaddedValue(m / 12, 4);
    PaddedValue(n / 12, 4);
    PaddedValue(m % 12 + 1, 2);
    PaddedValue(n % 12 + 1, 2);
    FieldFirst(Padded(m / 12, 4), DASH, Padded(m % 12 + 1, 2));
    FieldFirst(Padded(n / 12, 4), DASH, Padded(n % 12 + 1, 2));
  }

  lemma LabelPlain(m: Month)
    ensures |MonthLabel(m)| == 7 && NoControl(MonthLabel(m))
  {
    Widths();
    PaddedValue(m / 12, 4);
    PaddedValue(m % 12 + 1, 2);
  }
}
