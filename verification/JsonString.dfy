/** JSON string literals as Go's encoding/json writes them (section 7 of RFC 8259) and reads them back. */
module JsonString {
  import opened Bytes
  import opened Utf8

  const LOWER_U: Byte := 0x75
  const LINE_SEPARATOR: Bytes := [0xE2, 0x80, 0xA8]
  const PARAGRAPH_SEPARATOR: Bytes := [0xE2, 0x80, 0xA9]

  function HexDigit(n: nat): Byte
    requires n < 16
  {
    if n < 10 then 0x30 + n else 0x61 + (n - 10)
  }

  function HexValue(b: Byte): Option<nat> {
    if 0x30 <= b <= 0x39 then Some(b - 0x30)
    else if 0x61 <= b <= 0x66 then Some(b - 0x61 + 10)
    else if 0x41 <= b <= 0x46 then Some(b - 0x41 + 10)
    else None
  }

  function EscapeAscii(b: Byte): Bytes
    requires b < 0x80
  {
    if b == QUOTE || b == BACKSLASH then [BACKSLASH, b]
    else if b == 0x08 then [BACKSLASH, 0x62]
    else if b == 0x0C then [BACKSLASH, 0x66]
    else if b == 0x0A then [BACKSLASH, 0x6E]
    else if b == 0x0D then [BACKSLASH, 0x72]
    else if b == 0x09 then [BACKSLASH, 0x74]
    else if b < 0x20 || b == 0x3C || b == 0x3E || b == 0x26 then
      [BACKSLASH, LOWER_U, ZERO, ZERO, HexDigit(b / 16), HexDigit(b % 16)]
    else [b]
  }

  function EscapeRune(u: Bytes): Bytes
    requires Rune(u)
  {
    if |u| == 1 then EscapeAscii(u[0])
    else if u == LINE_SEPARATOR then [BACKSLASH, LOWER_U, 0x32, 0x30, 0x32, 0x38]
    else if u == PARAGRAPH_SEPARATOR then [BACKSLASH, LOWER_U, 0x32, 0x30, 0x32, 0x39]
    else u
  }

  /** The body json.Marshal writes between the quotes. */
  function Escape(s: Bytes): Bytes {
    if s == [] then []
    else if RuneLength(s) == 0 then
      [BACKSLASH, LOWER_U, 0x66, 0x66, 0x66, 0x64] + Escape(s[1..])
    else
      EscapeRune(s[..RuneLength(s)]) + Escape(s[RuneLength(s)..])
  }

  function Quote(s: Bytes): Bytes {
    [QUOTE] + Escape(s) + [QUOTE]
  }

  function Hex4(b: Bytes): Option<nat> {
    if |b| < 4 then None
    else match (HexValue(b[0]), HexValue(b[1]), HexValue(b[2]), HexValue(b[3]))
      case (Some(w), Some(x), Some(y), Some(z)) => Some(w * 4096 + x * 256 + y * 16 + z)
      case _ => None
  }

  predicate HighSurrogate(cp: nat) {
    0xD800 <= cp <= 0xDBFF
  }

  predicate LowSurrogate(cp: nat) {
    0xDC00 <= cp <= 0xDFFF
  }

  /** The low surrogate written as an escape at the front of b, if there is one. */
  function PairedLow(b: Bytes): Option<nat> {
    if |b| >= 6 && b[0] == BACKSLASH && b[1] == LOWER_U then
      match Hex4(b[2..])
      case Some(lo) => if LowSurrogate(lo) then Some(lo) else None
      case None => None
    else None
  }

  function SimpleEscape(b: Byte): Option<Byte> {
    if b == QUOTE || b == BACKSLASH || b == 0x2F then Some(b)
    else if b == 0x62 then Some(0x08)
    else if b == 0x66 then Some(0x0C)
    else if b == 0x6E then Some(0x0A)
    else if b == 0x72 then Some(0x0D)
    else if b == 0x74 then Some(0x09)
    else None
  }

  /** One decoded character: its bytes and how much of the literal it used. */
  datatype Unit = Unit(text: Bytes, size: nat)

  function UnicodeEscape(b: Bytes): Option<Unit>
    requires |b| >= 2
  {
    match Hex4(b[2..])
    case None => None
    case Some(cp) =>
      if HighSurrogate(cp) && PairedLow(b[6..]).Some? then
        Some(Unit(EncodeRune(0x10000 + (cp - 0xD800) * 0x400 + (PairedLow(b[6..]).value - 0xDC00)), 12))
      else if HighSurrogate(cp) || LowSurrogate(cp) then Some(Unit(REPLACEMENT, 6))
      else Some(Unit(EncodeRune(cp), 6))
  }

  function NextUnit(b: Bytes): (r: Option<Unit>)
    requires b != []
    ensures r.Some? ==> 0 < r.value.size <= |b|
  {
    if b[0] == BACKSLASH then
      if |b| < 2 then None
      else if b[1] == LOWER_U then UnicodeEscape(b)
      else match SimpleEscape(b[1])
        case Some(c) => Some(Unit([c], 2))
        case None => None
    else if b[0] == QUOTE || b[0] < 0x20 then None
    else if RuneLength(b) == 0 then Some(Unit(REPLACEMENT, 1))
    else Some(Unit(b[..RuneLength(b)], RuneLength(b)))
  }

  /** The text of a string literal's body, or None when the body is malformed. */
  function Unquote(b: Bytes): Option<Bytes> {
    if b == [] then Some([])
    else match NextUnit(b)
      case None => None
      case Some(u) =>
        match Unquote(b[u.size..])
        case None => None
        case Some(rest) => Some(u.text + rest)
  }

  /** Where the closing quote of the literal starting at t is. */
  function BodyLength(t: Bytes): (r: Option<nat>)
    ensures r.Some? ==> r.value < |t| && t[r.value] == QUOTE
  {
    if t == [] then None
    else if t[0] == QUOTE then Some(0)
    else match NextUnit(t)
      case None => None
      case Some(u) =>
        match BodyLength(t[u.size..])
        case None => None
        case Some(n) => Some(u.size + n)
  }

  lemma UnicodeUnitIsRune(b: Bytes)
    requires |b| >= 2 && UnicodeEscape(b).Some?
    ensures Rune(UnicodeEscape(b).value.text)
  {
    var cp := Hex4(b[2..]).value;
    if HighSurrogate(cp) && PairedLow(b[6..]).Some? {
      EncodedIsRune(0x10000 + (cp - 0xD800) * 0x400 + (PairedLow(b[6..]).value - 0xDC00));
    } else if !HighSurrogate(cp) && !LowSurrogate(cp) {
      EncodedIsRune(cp);
    }
  }

  lemma UnitIsRune(b: Bytes)
    requires b != [] && NextUnit(b).Some?
    ensures Rune(NextUnit(b).value.text)
  {
    if b[0] == BACKSLASH {
      if b[1] == LOWER_U {
        UnicodeUnitIsRune(b);
      }
    } else if RuneLength(b) > 0 {
      FrontIsRune(b);
    }
  }

  /** Whatever a literal decodes to is well-formed UTF-8. */
  lemma {:induction false} UnquoteValid(b: Bytes)
    requires Unquote(b).Some?
    ensures Valid(Unquote(b).value)
  {
    if b == [] {
    } else {
      var u := NextUnit(b).value;
      UnitIsRune(b);
      UnquoteValid(b[u.size..]);
      ValidThen(u.text, Unquote(b[u.size..]).value);
    }
  }

  lemma UnitBeforeQuote(b: Bytes, r: Bytes)
    requires b != [] && NextUnit(b).Some?
    requires r != [] && r[0] == QUOTE
    ensures NextUnit(b + r) == NextUnit(b)
  {
    if b[0] == BACKSLASH && b[1] == LOWER_U {
      UnicodeBeforeQuote(b, r);
    } else if b[0] != BACKSLASH && RuneLength(b) > 0 {
      var n := RuneLength(b);
      assert b + r == b[..n] + (b[n..] + r);
    }
  }

  lemma Hex4Before(b: Bytes, r: Bytes)
    requires Hex4(b).Some?
    ensures Hex4(b + r) == Hex4(b)
  {
  }

  lemma PairedBeforeQuote(b: Bytes, r: Bytes)
    requires r != [] && r[0] == QUOTE
    ensures PairedLow(b + r) == PairedLow(b)
  {
    var t := b + r;
    if 2 <= |b| < 6 && |t| >= 6 {
      assert t[|b|] == QUOTE && t[2..][|b| - 2] == QUOTE;
    } else if |b| >= 6 {
      assert t[2..] == b[2..] + r;
    }
  }

  lemma UnicodeBeforeQuote(b: Bytes, r: Bytes)
    requires |b| >= 2 && UnicodeEscape(b).Some? && UnicodeEscape(b).value.size <= |b|
    requires r != [] && r[0] == QUOTE
    ensures UnicodeEscape(b + r) == UnicodeEscape(b)
  {
    var t := b + r;
    assert t[2..] == b[2..] + r && t[6..] == b[6..] + r;
    Hex4Before(b[2..], r);
    PairedBeforeQuote(b[6..], r);
  }

  lemma RunePrefix(t: Bytes, n: nat)
    requires t != [] && 0 < n <= |t| && RuneLength(t) <= n
    ensures RuneLength(t[..n]) == RuneLength(t)
  {
  }

  lemma EscapePrefix(t: Bytes, n: nat)
    requires 2 <= n <= |t| && UnicodeEscape(t).Some? && UnicodeEscape(t).value.size <= n
    ensures UnicodeEscape(t[..n]) == UnicodeEscape(t)
  {
    assert t[..n][2..] == t[2..][..n - 2] && t[..n][6..] == t[6..][..n - 6];
    assert Hex4(t[..n][2..]) == Hex4(t[2..]);
    var p := t[6..];
    if |p| >= 6 && n >= 12 {
      assert p[..n - 6][2..] == p[2..][..n - 8];
      assert Hex4(p[..n - 6][2..]) == Hex4(p[2..]);
    }
  }

  lemma UnitPrefix(t: Bytes, n: nat)
    requires t != [] && NextUnit(t).Some? && NextUnit(t).value.size <= n <= |t|
    ensures NextUnit(t[..n]) == NextUnit(t)
  {
    if t[0] == BACKSLASH {
      if t[1] == LOWER_U {
        EscapePrefix(t, n);
      }
    } else {
      RunePrefix(t, n);
      assert t[..n][..RuneLength(t)] == t[..RuneLength(t)];
    }
  }

  /** A well-formed body is delimited by the first quote that follows it, and only such bodies are. */
  lemma {:induction false} BodyLengthComplete(b: Bytes, r: Bytes)
    requires Unquote(b).Some? && r != [] && r[0] == QUOTE
    ensures BodyLength(b + r) == Some(|b|)
  {
    if b == [] {
      assert b + r == r;
    } else {
      var u := NextUnit(b).value;
      BodyLengthComplete(b[u.size..], r);
      SuffixConcat(b, r, u.size);
      BodyLengthStep(b, r, u);
    }
  }

  lemma BodyLengthStep(b: Bytes, r: Bytes, u: Unit)
    requires b != [] && NextUnit(b) == Some(u) && r != [] && r[0] == QUOTE
    requires BodyLength((b + r)[u.size..]) == Some(|b| - u.size)
    ensures BodyLength(b + r) == Some(|b|)
  {
    UnitBeforeQuote(b, r);
    BodyLengthUnfold(b + r, u);
  }

  lemma SuffixConcat(b: Bytes, r: Bytes, n: nat)
    requires n <= |b|
    ensures (b + r)[n..] == b[n..] + r
  {
  }

  lemma BodyLengthUnfold(t: Bytes, u: Unit)
    requires t != [] && NextUnit(t) == Some(u) && BodyLength(t[u.size..]).Some?
    ensures BodyLength(t) == Some(u.size + BodyLength(t[u.size..]).value)
  {
  }

  lemma {:induction false} BodyLengthSound(t: Bytes)
    requires BodyLength(t).Some?
    ensures Unquote(t[..BodyLength(t).value]).Some?
  {
    if t[0] != QUOTE {
      var u := NextUnit(t).value;
      var n := BodyLength(t).value;
      BodyLengthSound(t[u.size..]);
      UnitPrefix(t, n);
      assert t[..n][u.size..] == t[u.size..][..n - u.size];
    }
  }

  lemma EscapedAsciiUnit(b: Byte, t: Bytes)
    requires b < 0x80
    ensures NextUnit(EscapeAscii(b) + t) == Some(Unit([b], |EscapeAscii(b)|))
  {
    var e := EscapeAscii(b);
    if |e| == 6 {
      assert (e + t)[2..] == e[2..] + t;
    }
  }

  lemma EscapedRuneUnit(u: Bytes, t: Bytes)
    requires Rune(u)
    ensures NextUnit(EscapeRune(u) + t) == Some(Unit(u, |EscapeRune(u)|))
  {
    var e := EscapeRune(u);
    if |u| == 1 {
      assert u == [u[0]];
      EscapedAsciiUnit(u[0], t);
    } else if e != u {
      assert (e + t)[2..] == e[2..] + t;
    } else {
      RuneThen(u, t);
    }
  }

  lemma ReplacementUnit(t: Bytes)
    ensures var e := [BACKSLASH, LOWER_U, 0x66, 0x66, 0x66, 0x64];
            NextUnit(e + t) == Some(Unit(REPLACEMENT, 6))
  {
    var e: Bytes := [BACKSLASH, LOWER_U, 0x66, 0x66, 0x66, 0x64];
    assert (e + t)[2..] == e[2..] + t;
  }

  /** Reading back a written literal gives the text with malformed bytes replaced. */
  lemma {:induction false} UnquoteEscape(s: Bytes)
    ensures Unquote(Escape(s)) == Some(Sanitise(s))
  {
    if s == [] {
    } else {
      var n := RuneLength(s);
      var k := if n == 0 then 1 else n;
      var e := if n == 0 then [BACKSLASH, LOWER_U, 0x66, 0x66, 0x66, 0x64] else EscapeRune(s[..n]);
      var t := Escape(s[k..]);
      UnquoteEscape(s[k..]);
      if n == 0 {
        ReplacementUnit(t);
      } else {
        EscapedRuneUnit(s[..n], t);
      }
      assert (e + t)[|e|..] == t;
    }
  }

  /** So a string survives the write-read round trip if and only if it is well-formed UTF-8. */
  lemma StringRoundTrip(s: Bytes)
    ensures Unquote(Escape(s)) == Some(s) <==> Valid(s)
  {
    UnquoteEscape(s);
    SanitiseExact(s);
  }

  /** No byte has a meaning to an HTML reader. */
  predicate HtmlSafe(s: Bytes) {
    forall b | b in s :: b != 0x3C && b != 0x3E && b != 0x26
  }

  /** No byte below 0x20 is ever written, in particular never the unit separator, and none of <, > and &. */
  lemma {:induction false} EscapeNoControl(s: Bytes)
    ensures NoControl(Escape(s)) && HtmlSafe(Escape(s))
  {
    if s == [] {
    } else {
      var n := RuneLength(s);
      EscapeNoControl(s[if n == 0 then 1 else n..]);
      if n > 0 {
        RuneClean(s[..n]);
      }
    }
  }

  lemma RuneClean(u: Bytes)
    requires Rune(u)
    ensures NoControl(EscapeRune(u)) && HtmlSafe(EscapeRune(u))
  {
    if |u| == 1 {
      AsciiClean(u[0]);
    } else {
      assert forall i | 0 <= i < |u| :: u[i] >= 0x80;
    }
  }

  lemma AsciiClean(b: Byte)
    requires b < 0x80
    ensures NoControl(EscapeAscii(b)) && HtmlSafe(EscapeAscii(b))
  {
  }

  /** Bytes a literal can hold as they are, whatever is around them. */
  predicate PlainByte(b: Byte) {
    0x20 <= b < 0x80 && b != QUOTE && b != BACKSLASH && HtmlSafe([b])
  }

  /** A text of plain bytes is written as it is. */
  lemma {:induction false} EscapePlain(s: Bytes)
    requires forall b | b in s :: PlainByte(b)
    ensures Escape(s) == s
  {
    if s == [] {
    } else {
      EscapePlain(s[1..]);
      assert s[0] in s && s[0] in [s[0]] && s[..1] == [s[0]];
      assert EscapeRune([s[0]]) == [s[0]];
      assert s == [s[0]] + s[1..];
    }
  }

  /** Every other ASCII byte gets the two-byte escape JSON has for it, or else six bytes with lower-case digits. */
  lemma EscapeShortest(b: Byte, c: Byte)
    requires b < 0x80 && !PlainByte(b)
    ensures SimpleEscape(c) == Some(b) ==> Escape([b]) == [BACKSLASH, c]
    ensures |Escape([b])| == 2 <==> exists d :: SimpleEscape(d) == Some(b)
    ensures |Escape([b])| == 2 || (|Escape([b])| == 6 && forall d | d in Escape([b]) :: !(0x41 <= d <= 0x46))
  {
    assert [b][..1] == [b] && [b][1..] == [];
    assert !HtmlSafe([b]) ==> b == 0x3C || b == 0x3E || b == 0x26;
    assert |EscapeAscii(b)| == 2 ==> SimpleEscape(EscapeAscii(b)[1]) == Some(b);
  }
}
