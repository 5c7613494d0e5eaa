/** The bytes others depend on, said byte by byte: timestamps, hashes, exported rows and the hashed text of a row. */
module WireFormat {
  import opened Bytes
  import opened Decimal
  import opened CivilTime
  import opened JsonString
  import opened JsonCanon
  import opened AuditCore
  import opened HashChain
  import opened AuditExport

  // ---- numbers ----

  /** An integer is a minus if it is negative and then digits, the first of them zero only for zero itself. */
  lemma IntShape(n: int)
    ensures var s := FormatInt(n); var m := if n < 0 then 1 else 0;
            && |s| > m && (n < 0 ==> s[0] == DASH)
            && (forall i | m <= i < |s| :: IsDigit(s[i]))
            && (s[m] == ZERO ==> n == 0 && |s| == 1)
  {
    var d := Digits(if n < 0 then -n else n);
    DigitsValue(if n < 0 then -n else n);
    NoLeadingZero(if n < 0 then -n else n);
    assert forall i | 0 <= i < |d| :: d[i] in d;
  }

  lemma {:induction false} NoLeadingZero(n: nat)
    ensures Digits(n) != [] && (Digits(n)[0] == ZERO ==> n == 0 && |Digits(n)| == 1)
  {
    if n >= 10 {
      NoLeadingZero(n / 10);
    }
  }

  /** Digits weigh ten times their right neighbours. */
  lemma {:induction false} Positional(s: Bytes, t: Bytes)
    ensures Value(s + t) == Value(s) * Pow10(|t|) + Value(t)
  {
    if t == [] {
      assert s + t == s;
    } else {
      var n := |t| - 1;
      Positional(s, t[..n]);
      assert (s + t)[..|s| + n] == s + t[..n];
      Shifted(Value(s), Pow10(n), Value(t[..n]));
    }
  }

  lemma Shifted(a: int, p: int, b: int)
    ensures 10 * (a * p + b) == a * (10 * p) + 10 * b
  {
  }

  // ---- timestamps ----

  /** Digits everywhere but in these places. */
  predicate Stamped(s: Bytes) {
    && |s| >= 20 && s[4] == DASH && s[7] == DASH && s[10] == 0x54 && s[13] == COLON && s[16] == COLON
    && s[|s| - 1] == 0x5A
    && (forall i | 0 <= i < 19 && i !in {4, 7, 10, 13, 16} :: IsDigit(s[i]))
    && (|s| > 20 ==> s[19] == DOT && |s| >= 22 && s[|s| - 2] != ZERO && forall i | 20 <= i < |s| - 1 :: IsDigit(s[i]))
  }

  lemma {:induction false} DropZerosShape(s: Bytes)
    ensures DropZeros(s) <= s && (DropZeros(s) != [] ==> DropZeros(s)[|DropZeros(s)| - 1] != ZERO)
    ensures DropZeros(s) == [] ==> forall b | b in s :: b == ZERO
  {
    if s != [] && s[|s| - 1] == ZERO {
      DropZerosShape(s[..|s| - 1]);
      assert s == s[..|s| - 1] + [ZERO];
    }
  }

  lemma FractionShape(t: Time)
    ensures var f := FractionText(t);
            && f != [] && f[|f| - 1] == LETTER_Z
            && (|f| > 1 ==> |f| >= 3 && f[0] == DOT && f[|f| - 2] != ZERO
                            && forall i | 1 <= i < |f| - 1 :: IsDigit(f[i]))
  {
    if t.nano > 0 {
      var d := DropZeros(Padded(t.nano, 9));
      Widths();
      PaddedValue(t.nano, 9);
      DropZerosShape(Padded(t.nano, 9));
      DropZerosPads(Padded(t.nano, 9));
      if d == [] {
        assert Padded(t.nano, 9) == Zeros(9);
        ZerosValue(9);
      }
      assert forall i | 0 <= i < |d| :: d[i] in d;
    }
  }

  lemma FieldDigits(n: nat, width: nat)
    requires n < Pow10(width)
    ensures |Padded(n, width)| == width && forall i | 0 <= i < width :: IsDigit(Padded(n, width)[i])
  {
    PaddedValue(n, width);
    assert forall i | 0 <= i < |Padded(n, width)| :: Padded(n, width)[i] in Padded(n, width);
  }

  /** Two digits, a separator, and the rest. */
  predicate PairThen(s: Bytes, b: Byte, r: Bytes) {
    |s| == |r| + 3 && IsDigit(s[0]) && IsDigit(s[1]) && s[2] == b && s[3..] == r
  }

  lemma PairField(n: nat, b: Byte, r: Bytes)
    requires n < 100
    ensures PairThen(Padded(n, 2) + ([b] + r), b, r)
  {
    Widths();
    FieldDigits(n, 2);
    FieldFirst(Padded(n, 2), b, r);
  }

  lemma ClockShape(t: Time)
    ensures var c := ClockText(t);
            && |c| == 8 + |FractionText(t)| && c[2] == COLON && c[5] == COLON && c[8..] == FractionText(t)
            && forall i | 0 <= i < 8 && i != 2 && i != 5 :: IsDigit(c[i])
  {
    var c := ClockText(t);
    Widths();
    FieldDigits(t.second, 2);
    var e := Padded(t.second, 2) + FractionText(t);
    assert e[2..] == FractionText(t);
    var d := Padded(t.minute, 2) + ([COLON] + e);
    PairField(t.minute, COLON, e);
    PairField(t.hour, COLON, d);
    assert c[3..] == d && d[3..] == e;
    assert c[6..] == e && c[8..] == e[2..];
  }

  lemma MonthDayShape(t: Time, c: Bytes)
    ensures var a := Padded(t.month, 2) + ([DASH] + (Padded(t.day, 2) + ([LETTER_T] + c)));
            && |a| == 6 + |c| && a[2] == DASH && a[5] == LETTER_T && a[6..] == c
            && forall i | 0 <= i < 5 && i != 2 :: IsDigit(a[i])
  {
    var b := Padded(t.day, 2) + ([LETTER_T] + c);
    var a := Padded(t.month, 2) + ([DASH] + b);
    PairField(t.day, LETTER_T, c);
    PairField(t.month, DASH, b);
    assert a[3..] == b && a[6..] == b[3..];
  }

  /** Every timestamp is YYYY-MM-DDTHH:MM:SS and then a Z, with a fraction before it that ends in no zero or none. */
  lemma TimestampShape(t: Time)
    ensures Stamped(Format(t)) && (|Format(t)| == 20 <==> t.nano == 0)
  {
    var s, c, f := Format(t), ClockText(t), FractionText(t);
    var a := Padded(t.month, 2) + ([DASH] + (Padded(t.day, 2) + ([LETTER_T] + c)));
    Widths();
    FieldDigits(t.year, 4);
    MonthDayShape(t, c);
    ClockShape(t);
    FractionShape(t);
    assert s == Padded(t.year, 4) + ([DASH] + a);
    StampedFrom(s, Padded(t.year, 4), a, c, f);
    NoFraction(t);
  }

  lemma NoFraction(t: Time)
    ensures |FractionText(t)| == 1 <==> t.nano == 0
  {
    if t.nano > 0 {
      assert FractionText(t)[0] == DOT;
    }
  }

  lemma StampedFrom(s: Bytes, y: Bytes, a: Bytes, c: Bytes, f: Bytes)
    requires s == y + ([DASH] + a) && |y| == 4 && (forall i | 0 <= i < 4 :: IsDigit(y[i]))
    requires |a| == 6 + |c| && a[2] == DASH && a[5] == LETTER_T && a[6..] == c
    requires forall i | 0 <= i < 5 && i != 2 :: IsDigit(a[i])
    requires |c| == 8 + |f| && c[2] == COLON && c[5] == COLON && c[8..] == f
    requires forall i | 0 <= i < 8 && i != 2 && i != 5 :: IsDigit(c[i])
    requires f != [] && f[|f| - 1] == LETTER_Z
    requires |f| > 1 ==> |f| >= 3 && f[0] == DOT && f[|f| - 2] != ZERO && forall i | 1 <= i < |f| - 1 :: IsDigit(f[i])
    ensures Stamped(s) && |s| == 19 + |f|
  {
    assert s[7] == a[2] && s[10] == a[5] && s[13] == a[8] == c[2] && s[16] == a[11] == c[5];
    forall i | 0 <= i < 19 && i !in {4, 7, 10, 13, 16}
      ensures IsDigit(s[i])
    {
      if i < 4 {
        assert s[i] == y[i];
      } else if i < 10 {
        assert s[i] == a[i - 5];
      } else {
        assert s[i] == a[i - 5] == c[i - 11];
      }
    }
    forall i | 0 <= i < |f|
      ensures s[19 + i] == f[i]
    {
      assert s[19 + i] == a[14 + i] == c[8 + i];
    }
    assert s[19..] == f;
    FractionPlace(s, f);
  }

  lemma FractionPlace(s: Bytes, f: Bytes)
    requires |s| >= 20 && s[19..] == f && f[|f| - 1] == LETTER_Z
    requires |f| > 1 ==> |f| >= 3 && f[0] == DOT && f[|f| - 2] != ZERO && forall i | 1 <= i < |f| - 1 :: IsDigit(f[i])
    ensures s[|s| - 1] == LETTER_Z
    ensures |s| > 20 ==> s[19] == DOT && |s| >= 22 && s[|s| - 2] != ZERO && forall i | 20 <= i < |s| - 1 :: IsDigit(s[i])
  {
    assert forall i | 19 <= i < |s| :: s[i] == f[i - 19];
  }

  /** A month's label is how every timestamp in it begins. */
  lemma LabelBegins(t: Time)
    ensures Format(t)[..7] == MonthLabel(MonthOf(t))
  {
    Widths();
    FieldDigits(t.year, 4);
    FieldDigits(t.month, 2);
    var rest := Padded(t.day, 2) + ([LETTER_T] + ClockText(t));
    var a := Padded(t.month, 2) + ([DASH] + rest);
    assert Format(t) == Padded(t.year, 4) + ([DASH] + a);
    assert MonthOf(t) / 12 == t.year && MonthOf(t) % 12 + 1 == t.month;
  }

  // ---- hashes and exported rows ----

  predicate LowerHex(b: Byte) {
    0x30 <= b <= 0x39 || 0x61 <= b <= 0x66
  }

  predicate HexPair(s: Bytes, k: nat, b: Byte) {
    && k + 1 < |s| && LowerHex(s[k]) && LowerHex(s[k + 1])
    && HexValue(s[k]) == Some(b / 16) && HexValue(s[k + 1]) == Some(b % 16)
  }

  lemma {:induction false} HexLength(b: Bytes)
    ensures |HexEncode(b)| == 2 * |b|
  {
    if b == [] {
    } else {
      HexLength(b[1..]);
    }
  }

  /** Two lower-case digits a byte, the high half first. */
  lemma {:induction false} HexLayout(b: Bytes, i: nat)
    requires i < |b|
    ensures |HexEncode(b)| == 2 * |b| && HexPair(HexEncode(b), 2 * i, b[i])
  {
    HexLength(b);
    var s, t := HexEncode(b), HexEncode(b[1..]);
    if i > 0 {
      HexLayout(b[1..], i - 1);
      assert s[2 * i] == t[2 * (i - 1)] && s[2 * i + 1] == t[2 * (i - 1) + 1] && b[i] == b[1..][i - 1];
    }
  }

  /** What an exported row says about the stored one, field by field. */
  lemma EntrySays(row: VerifyRow)
    ensures var c, e := row.core, NewExportEntry(row);
            && e.id == c.id && e.time == c.createdAt && e.source == c.source && e.actorUserId == c.actorUserId
            && e.action == c.action && e.subjectType == c.subjectType && e.subjectId == c.subjectId
            && e.outcome == c.outcome && e.previewId == c.previewId && e.httpStatus == c.httpStatus
            && (e.traceId == None <==> c.traceId == []) && (e.traceId.Some? ==> e.traceId.value == c.traceId)
            && e.args == (if c.args == NULL_TEXT then [] else c.args)
            && e.result == (if c.result == NULL_TEXT then [] else c.result)
            && |e.prevHash| == 2 * |row.prevHash| && |e.rowHash| == 2 * |row.rowHash|
            && HexDecode(e.prevHash) == row.prevHash && HexDecode(e.rowHash) == row.rowHash
  {
    HexLength(row.prevHash);
    HexLength(row.rowHash);
    HexRoundTrip(row.prevHash);
    HexRoundTrip(row.rowHash);
  }

  // ---- the hashed text ----

  predicate PlainText(s: Bytes) {
    forall b | b in s :: PlainByte(b)
  }

  predicate PlainOption(s: Option<Bytes>) {
    s.Some? ==> PlainText(s.value)
  }

  function InQuotes(s: Bytes): Bytes {
    [QUOTE] + s + [QUOTE]
  }

  function OrNull(s: Option<Bytes>): Bytes {
    if s.Some? then InQuotes(s.value) else Ascii("null")
  }

  lemma QuotedPlain(s: Bytes)
    requires PlainText(s)
    ensures Quote(s) == InQuotes(s)
  {
    EscapePlain(s);
  }

  lemma OptionPlain(s: Option<Bytes>)
    requires PlainOption(s)
    ensures NullableText(s) == OrNull(s)
  {
    if s.Some? {
      QuotedPlain(s.value);
    }
    assert NULL_TEXT == Ascii("null");
  }

  const SEPARATOR: Bytes := [UNIT_SEPARATOR]

  lemma JoinStep(f: seq<Bytes>, k: nat)
    requires 0 < k < |f|
    ensures Join(f[..k + 1]) == Join(f[..k]) + SEPARATOR + f[k]
  {
    assert f[..k + 1] == f[..k] + [f[k]];
    JoinAppend(f[..k], f[k]);
  }

  lemma JoinSeven(f: seq<Bytes>)
    requires |f| == 14
    ensures Join(f[..7]) == f[0] + SEPARATOR + f[1] + SEPARATOR + f[2] + SEPARATOR + f[3] + SEPARATOR + f[4] + SEPARATOR
                            + f[5] + SEPARATOR + f[6]
  {
    assert Join(f[..1]) == f[0];
    JoinStep(f, 1);
    JoinStep(f, 2);
    JoinStep(f, 3);
    JoinStep(f, 4);
    JoinStep(f, 5);
    JoinStep(f, 6);
  }

  lemma JoinTen(f: seq<Bytes>)
    requires |f| == 14
    ensures Join(f[..10]) == Join(f[..7]) + SEPARATOR + f[7] + SEPARATOR + f[8] + SEPARATOR + f[9]
  {
    JoinStep(f, 7);
    JoinStep(f, 8);
    JoinStep(f, 9);
  }

  lemma JoinFourteen(f: seq<Bytes>)
    requires |f| == 14
    ensures Join(f) == Join(f[..10]) + SEPARATOR + f[10] + SEPARATOR + f[11] + SEPARATOR + f[12] + SEPARATOR + f[13]
  {
    JoinStep(f, 10);
    JoinStep(f, 11);
    JoinStep(f, 12);
    JoinStep(f, 13);
    assert f[..14] == f;
  }

  predicate PlainCore(c: Core) {
    && PlainText(c.teamId) && PlainOption(c.actorUserId) && PlainText(c.source) && PlainText(c.subjectType)
    && PlainOption(c.subjectId) && PlainText(c.action) && PlainOption(c.previewId) && PlainText(c.traceId)
    && PlainText(c.outcome)
  }

  /** The hashed text of a row whose texts are plain, spelled out. */
  lemma PlainLayout(norm: FloatText, c: Core, args: Bytes, result: Bytes)
    requires PlainCore(c) && CanonicalJson(norm, c.args) == Some(args) && CanonicalJson(norm, c.result) == Some(result)
    ensures CanonicalCore(norm, c) == Some(
              FormatInt(c.id) + SEPARATOR + InQuotes(c.teamId) + SEPARATOR + OrNull(c.actorUserId) + SEPARATOR
              + InQuotes(c.source) + SEPARATOR + InQuotes(c.subjectType) + SEPARATOR + OrNull(c.subjectId) + SEPARATOR
              + InQuotes(c.action) + SEPARATOR + args + SEPARATOR + result + SEPARATOR + OrNull(c.previewId) + SEPARATOR
              + InQuotes(c.traceId) + SEPARATOR + InQuotes(c.outcome) + SEPARATOR
              + (if c.httpStatus.Some? then FormatInt(c.httpStatus.value) else Ascii("null")) + SEPARATOR
              + InQuotes(Format(TruncateMicro(c.createdAt))))
  {
    var f := FieldTexts(c, args, result);
    JoinSeven(f);
    JoinTen(f);
    JoinFourteen(f);
    PlainFields(c);
    TimestampPlain(c.createdAt);
    StatusText(c.httpStatus);
  }

  lemma StatusText(n: Option<int>)
    ensures NullableInt(n) == if n.Some? then FormatInt(n.value) else Ascii("null")
  {
    assert NULL_TEXT == Ascii("null");
  }

  lemma PlainFields(c: Core)
    requires PlainCore(c)
    ensures Quote(c.teamId) == InQuotes(c.teamId) && NullableText(c.actorUserId) == OrNull(c.actorUserId)
    ensures Quote(c.source) == InQuotes(c.source) && Quote(c.subjectType) == InQuotes(c.subjectType)
    ensures NullableText(c.subjectId) == OrNull(c.subjectId) && Quote(c.action) == InQuotes(c.action)
    ensures NullableText(c.previewId) == OrNull(c.previewId) && Quote(c.traceId) == InQuotes(c.traceId)
    ensures Quote(c.outcome) == InQuotes(c.outcome)
  {
    QuotedPlain(c.teamId);
    OptionPlain(c.actorUserId);
    QuotedPlain(c.source);
    QuotedPlain(c.subjectType);
    OptionPlain(c.subjectId);
    QuotedPlain(c.action);
    OptionPlain(c.previewId);
    QuotedPlain(c.traceId);
    QuotedPlain(c.outcome);
  }

  lemma TimestampPlain(t: Time)
    ensures var s := Format(TruncateMicro(t)); Quote(s) == InQuotes(s)
  {
    TimestampShape(TruncateMicro(t));
    StampedPlain(Format(TruncateMicro(t)));
    QuotedPlain(Format(TruncateMicro(t)));
  }

  lemma StampedPlain(s: Bytes)
    requires Stamped(s)
    ensures PlainText(s)
  {
    forall i | 0 <= i < |s|
      ensures PlainByte(s[i])
    {
      assert IsDigit(s[i]) || s[i] in {DASH, COLON, DOT, 0x54, 0x5A};
      assert HtmlSafe([s[i]]);
    }
  }
}
