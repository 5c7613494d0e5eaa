/** Decimal text: integers as json.Marshal prints them, and the zero-padded fields of a timestamp. */
module Decimal {
  import opened Bytes

  function Digits(n: nat): Bytes {
    if n < 10 then [0x30 + n] else Digits(n / 10) + [0x30 + n % 10]
  }

  function FormatInt(n: int): Bytes {
    if n < 0 then [DASH] + Digits(-n) else Digits(n)
  }

  function Padded(n: nat, width: nat): Bytes {
    if width == 0 then [] else Padded(n / 10, width - 1) + [0x30 + n % 10]
  }

  /** The number a run of digits denotes. */
  function Value(s: Bytes): int {
    if s == [] then 0 else 10 * Value(s[..|s| - 1]) + s[|s| - 1] - 0x30
  }

  function ParseInt(s: Bytes): int {
    if s != [] && s[0] == DASH then -Value(s[1..]) else Value(s)
  }

  function Pow10(width: nat): nat {
    if width == 0 then 1 else 10 * Pow10(width - 1)
  }

  lemma {:induction false} DigitsValue(n: nat)
    ensures Value(Digits(n)) == n
    ensures Digits(n) != [] && forall b | b in Digits(n) :: IsDigit(b)
  {
    if n >= 10 {
      DigitsValue(n / 10);
      assert Digits(n)[..|Digits(n)| - 1] == Digits(n / 10);
    }
  }

  /** Printing an integer and reading it back is the identity. */
  lemma IntRoundTrip(n: int)
    ensures ParseInt(FormatInt(n)) == n
    ensures NoControl(FormatInt(n)) && FormatInt(n) != NULL_TEXT
  {
    DigitsValue(if n < 0 then -n else n);
    var d := Digits(if n < 0 then -n else n);
    assert d[0] in d;
    assert FormatInt(n)[0] != NULL_TEXT[0];
    assert n < 0 ==> FormatInt(n)[1..] == d;
  }

  lemma {:induction false} PaddedValue(n: nat, width: nat)
    requires n < Pow10(width)
    ensures Value(Padded(n, width)) == n
    ensures |Padded(n, width)| == width && forall b | b in Padded(n, width) :: IsDigit(b)
  {
    if width == 0 {
    } else {
      PaddedValue(n / 10, width - 1);
      assert Padded(n, width)[..width - 1] == Padded(n / 10, width - 1);
    }
  }

  lemma Widths()
    ensures Pow10(2) == 100 && Pow10(4) == 10000 && Pow10(9) == 1000000000
  {
    assert Pow10(3) == 1000;
    assert Pow10(6) == 1000 * Pow10(3);
  }
}
