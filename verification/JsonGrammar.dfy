/** The scanner's numbers and escapes against the grammar of RFC 8259. */
module JsonGrammar {
  import opened Bytes
  import opened Utf8
  import opened JsonString
  import opened JsonText

  // ---- numbers (section 6) ----

  predicate DigitsAt(s: Bytes, i: nat, j: nat) {
    i <= j <= |s| && forall k | i <= k < j :: IsDigit(s[k])
  }

  predicate Sign(b: Byte) {
    b == DASH || b == 0x2B
  }

  /** Digits to the end of s, at least one, with a sign before them or none. */
  predicate Exponent(s: Bytes) {
    s != [] && var d := if Sign(s[0]) then 1 else 0; d < |s| && DigitsAt(s, d, |s|)
  }

  /** From i on: a fraction, if any, up to j, and then an exponent, if any. */
  predicate FracExpAt(s: Bytes, i: nat, j: nat) {
    && i <= j <= |s|
    && (i < j ==> s[i] == DOT && i + 1 < j && DigitsAt(s, i + 1, j))
    && (j < |s| ==> (s[j] == 0x65 || s[j] == 0x45) && Exponent(s[j + 1..]))
  }

  /** An optional minus, an integer part without leading zeros up to i, and what may follow it. */
  predicate NumberAt(s: Bytes, i: nat, j: nat) {
    var m := if s != [] && s[0] == DASH then 1 else 0;
    m < i && DigitsAt(s, m, i) && (s[m] == ZERO ==> i == m + 1) && FracExpAt(s, i, j)
  }

  lemma {:induction false} ExpIntIs(s: Bytes)
    ensures NumberFrom(ExpInt, s) <==> DigitsAt(s, 0, |s|)
  {
    if s == [] {
    } else {
      ExpIntIs(s[1..]);
      assert s == [s[0]] + s[1..];
    }
  }

  lemma ExpIs(s: Bytes)
    ensures NumberFrom(Exp, s) <==> Exponent(s)
  {
    if s != [] {
      ExpIntIs(s[1..]);
      assert s == [s[0]] + s[1..];
      if |s| > 1 {
        ExpIntIs(s[1..][1..]);
        assert s[1..] == [s[1]] + s[1..][1..];
      }
    }
  }

  /** Digits up to j and an exponent after them. */
  predicate DigitsExpAt(s: Bytes, j: nat) {
    DigitsAt(s, 0, j) && (j < |s| ==> (s[j] == 0x65 || s[j] == 0x45) && Exponent(s[j + 1..]))
  }

  lemma DigitsExpShift(s: Bytes, j: nat)
    requires s != [] && IsDigit(s[0])
    ensures DigitsExpAt(s, j + 1) <==> DigitsExpAt(s[1..], j)
    ensures !DigitsExpAt(s, 0)
  {
    if DigitsAt(s[1..], 0, j) {
      assert forall k | 0 < k < j + 1 :: s[k] == s[1..][k - 1];
    }
    if j + 1 < |s| {
      assert s[j + 2..] == s[1..][j + 1..];
    }
  }

  lemma {:induction false} FracIs(s: Bytes)
    ensures NumberFrom(Frac, s) <==> exists j: nat :: DigitsExpAt(s, j)
  {
    if s == [] {
      assert DigitsExpAt(s, 0);
    } else if IsDigit(s[0]) {
      FracIs(s[1..]);
      forall j: nat
        ensures DigitsExpAt(s, j + 1) <==> DigitsExpAt(s[1..], j)
        ensures !DigitsExpAt(s, 0)
      {
        DigitsExpShift(s, j);
      }
      assert forall j: nat | DigitsExpAt(s, j) :: j > 0 && DigitsExpAt(s[1..], j - 1);
    } else {
      ExpIs(s[1..]);
      assert NumberFrom(Frac, s) <==> DigitsExpAt(s, 0);
    }
  }

  lemma FracExpShift(s: Bytes, j: nat)
    requires s != [] && s[0] == DOT && |s| > 1 && IsDigit(s[1])
    ensures FracExpAt(s, 0, j + 2) <==> DigitsExpAt(s[2..], j)
  {
    if DigitsAt(s[2..], 0, j) {
      assert forall k | 2 <= k < j + 2 :: s[k] == s[2..][k - 2];
    }
    if j + 2 < |s| {
      assert s[j + 3..] == s[2..][j + 1..];
    }
  }

  lemma ZeroIs(s: Bytes)
    ensures NumberFrom(Zero, s) <==> exists j: nat :: FracExpAt(s, 0, j)
  {
    if s == [] {
      assert FracExpAt(s, 0, 0);
    } else if s[0] == DOT {
      assert !FracExpAt(s, 0, 0) && !FracExpAt(s, 0, 1);
      if |s| > 1 && IsDigit(s[1]) {
        assert s[1..][1..] == s[2..];
        FracIs(s[2..]);
        forall j: nat
          ensures FracExpAt(s, 0, j + 2) <==> DigitsExpAt(s[2..], j)
        {
          FracExpShift(s, j);
        }
        assert forall j: nat | FracExpAt(s, 0, j) :: j >= 2 && DigitsExpAt(s[2..], j - 2);
      }
    } else {
      ExpIs(s[1..]);
      assert NumberFrom(Zero, s) <==> FracExpAt(s, 0, 0);
    }
  }

  lemma FracExpNext(s: Bytes, i: nat, j: nat)
    requires s != []
    ensures FracExpAt(s, i + 1, j + 1) <==> FracExpAt(s[1..], i, j)
  {
    var t := s[1..];
    assert forall k | 0 <= k < |t| :: t[k] == s[k + 1];
    if i < j && DigitsAt(t, i + 1, j) {
      assert forall k | i + 2 <= k < j + 1 :: s[k] == t[k - 1];
    }
    if j < |t| {
      assert t[j + 1..] == s[j + 2..];
    }
  }

  predicate IntAt(s: Bytes, i: nat, j: nat) {
    DigitsAt(s, 0, i) && FracExpAt(s, i, j)
  }

  lemma IntAtNext(s: Bytes, i: nat, j: nat)
    requires s != [] && IsDigit(s[0])
    ensures IntAt(s, i + 1, j + 1) <==> IntAt(s[1..], i, j)
    ensures !IntAt(s, 0, j)
  {
    FracExpNext(s, i, j);
    if DigitsAt(s[1..], 0, i) {
      assert forall k | 0 < k < i + 1 :: s[k] == s[1..][k - 1];
    }
  }

  lemma {:induction false} IntIs(s: Bytes)
    ensures NumberFrom(Int, s) <==> exists i: nat, j: nat :: IntAt(s, i, j)
  {
    if s == [] || !IsDigit(s[0]) {
      IntEnds(s);
    } else {
      IntIs(s[1..]);
      forall i: nat, j: nat
        ensures IntAt(s, i + 1, j + 1) <==> IntAt(s[1..], i, j)
        ensures !IntAt(s, 0, j)
      {
        IntAtNext(s, i, j);
      }
      assert forall i: nat, j: nat | IntAt(s, i, j) :: i > 0 && j > 0 && IntAt(s[1..], i - 1, j - 1);
    }
  }

  lemma IntEnds(s: Bytes)
    requires s == [] || !IsDigit(s[0])
    ensures NumberFrom(Int, s) <==> exists i: nat, j: nat :: IntAt(s, i, j)
  {
    ZeroIs(s);
    assert NumberFrom(Int, s) <==> NumberFrom(Zero, s);
    assert forall j: nat :: FracExpAt(s, 0, j) <==> IntAt(s, 0, j);
    assert forall i: nat, j: nat | IntAt(s, i, j) :: i == 0;
  }

  /** The part of a number behind its minus. */
  predicate UnsignedAt(s: Bytes, i: nat, j: nat) {
    0 < i && DigitsAt(s, 0, i) && (s[0] == ZERO ==> i == 1) && FracExpAt(s, i, j)
  }

  lemma UnsignedNext(s: Bytes, i: nat, j: nat)
    requires s != [] && IsDigit(s[0])
    ensures UnsignedAt(s, i + 1, j + 1) <==>
            (if s[0] == ZERO then i == 0 && FracExpAt(s[1..], 0, j) else IntAt(s[1..], i, j))
  {
    FracExpNext(s, i, j);
    if DigitsAt(s[1..], 0, i) {
      assert forall k | 0 < k < i + 1 :: s[k] == s[1..][k - 1];
    }
  }

  lemma UnsignedIs(s: Bytes)
    ensures NumberFrom(Minus, s) <==> exists i: nat, j: nat :: UnsignedAt(s, i, j)
  {
    if s != [] && IsDigit(s[0]) {
      ZeroIs(s[1..]);
      IntIs(s[1..]);
      if i: nat, j: nat :| UnsignedAt(s, i, j) {
        UnsignedNext(s, i - 1, j - 1);
      }
      if s[0] == ZERO {
        if j: nat :| FracExpAt(s[1..], 0, j) {
          UnsignedNext(s, 0, j);
        }
      } else if i: nat, j: nat :| IntAt(s[1..], i, j) {
        UnsignedNext(s, i, j);
      }
    }
  }

  lemma SignedNext(s: Bytes, i: nat, j: nat)
    requires s != [] && s[0] == DASH
    ensures NumberAt(s, i + 1, j + 1) <==> UnsignedAt(s[1..], i, j)
    ensures !NumberAt(s, 0, j)
  {
    FracExpNext(s, i, j);
    if DigitsAt(s[1..], 0, i) {
      assert forall k | 1 <= k < i + 1 :: s[k] == s[1..][k - 1];
    }
  }

  /** The scanner accepts exactly the numbers of the grammar. */
  lemma NumberGrammar(s: Bytes)
    ensures NumberToken(s) <==> exists i: nat, j: nat :: NumberAt(s, i, j)
  {
    if s != [] && s[0] == DASH {
      UnsignedIs(s[1..]);
      forall i: nat, j: nat
        ensures NumberAt(s, i + 1, j + 1) <==> UnsignedAt(s[1..], i, j)
        ensures !NumberAt(s, 0, j)
      {
        SignedNext(s, i, j);
      }
      assert forall i: nat, j: nat | NumberAt(s, i, j) :: i > 0 && j > 0 && UnsignedAt(s[1..], i - 1, j - 1);
    } else {
      UnsignedIs(s);
      assert NumberToken(s) <==> NumberFrom(Minus, s);
      assert forall i: nat, j: nat :: NumberAt(s, i, j) <==> UnsignedAt(s, i, j);
    }
  }

  // ---- escapes (section 7) ----

  predicate HexText(s: Bytes, n: nat) {
    |s| == 4 && Hex4(s) == Some(n)
  }

  /** Any character may be written as one \u escape, or as a surrogate pair of them beyond the first 65536, with
      digits of either case, and is read back as itself. */
  lemma EscapedScalar(cp: nat, hi: Bytes, lo: Bytes, rest: Bytes)
    requires Scalar(cp)
    requires if cp < 0x10000 then HexText(hi, cp)
             else HexText(hi, 0xD800 + (cp - 0x10000) / 0x400) && HexText(lo, 0xDC00 + (cp - 0x10000) % 0x400)
    ensures var text := [BACKSLASH, LOWER_U] + hi + if cp < 0x10000 then [] else [BACKSLASH, LOWER_U] + lo;
            NextUnit(text + rest) == Some(Unit(EncodeRune(cp), |text|))
  {
  }
}
