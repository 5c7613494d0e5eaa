/** Byte strings, optional values and results shared by every module. */
module Bytes {

  type Byte = b: int | 0 <= b < 256

  type Bytes = seq<Byte>

  datatype Option<+T> = None | Some(value: T)

  datatype Result<+T, +E> = Ok(value: T) | Err(error: E)

  /** SHA-256 output. The hash function itself is a parameter of the model. */
  type Digest = d: Bytes | |d| == 32 witness seq(32, _ => 0)

  const QUOTE: Byte := 0x22
  const BACKSLASH: Byte := 0x5C
  const COMMA: Byte := 0x2C
  const COLON: Byte := 0x3A
  const DASH: Byte := 0x2D
  const DOT: Byte := 0x2E
  const ZERO: Byte := 0x30
  const UNIT_SEPARATOR: Byte := 0x1F

  const NULL_TEXT: Bytes := [0x6E, 0x75, 0x6C, 0x6C]

  function AsciiByte(c: char): Byte {
    if c < 128 as char then c as int else 0x3F
  }

  /** ASCII text as bytes. */
  function Ascii(s: string): (b: Bytes)
    ensures |b| == |s|
  {
    seq(|s|, i requires 0 <= i < |s| => AsciiByte(s[i]))
  }

  predicate IsDigit(b: Byte) {
    0x30 <= b <= 0x39
  }

  /** Lexicographic order on bytes, the order Go compares strings in. */
  predicate Less(a: Bytes, b: Bytes) {
    b != [] && (a == [] || a[0] < b[0] || (a[0] == b[0] && Less(a[1..], b[1..])))
  }

  lemma {:induction false} LessTrichotomy(a: Bytes, b: Bytes)
    ensures a == b || Less(a, b) || Less(b, a)
    ensures !(Less(a, b) && Less(b, a))
    ensures !Less(a, a)
  {
    if a == [] {
    } else {
      LessTrichotomy(a[1..], a[1..]);
      if b != [] {
        LessTrichotomy(a[1..], b[1..]);
        if a[0] == b[0] && a[1..] == b[1..] {
          assert a == [a[0]] + a[1..] && b == [b[0]] + b[1..];
        }
      }
    }
  }

  lemma {:induction false} LessTransitive(a: Bytes, b: Bytes, c: Bytes)
    requires Less(a, b) && Less(b, c)
    ensures Less(a, c)
  {
    if a != [] && a[0] == b[0] == c[0] {
      LessTransitive(a[1..], b[1..], c[1..]);
    }
  }

  /** The texts agree before i, where a ends or has the lower byte. */
  predicate PrecedesAt(a: Bytes, b: Bytes, i: nat) {
    i <= |a| && i < |b| && (forall j | 0 <= j < i :: a[j] == b[j]) && (i == |a| || a[i] < b[i])
  }

  /** One text comes before another exactly when it has the lower byte where they first differ, or is a proper
      beginning of it. */
  lemma {:induction false} LessMeans(a: Bytes, b: Bytes)
    ensures Less(a, b) <==> exists i: nat :: PrecedesAt(a, b, i)
  {
    assert PrecedesAt(a, b, 0) <==> b != [] && (a == [] || a[0] < b[0]);
    if a != [] && b != [] && a[0] == b[0] {
      LessMeans(a[1..], b[1..]);
      forall i: nat
        ensures PrecedesAt(a, b, i + 1) <==> PrecedesAt(a[1..], b[1..], i)
      {
        PrecedesShift(a, b, i);
      }
      assert forall i: nat | PrecedesAt(a, b, i) :: i > 0 && PrecedesAt(a[1..], b[1..], i - 1);
    }
  }

  lemma PrecedesShift(a: Bytes, b: Bytes, i: nat)
    requires a != [] && b != [] && a[0] == b[0]
    ensures PrecedesAt(a, b, i + 1) <==> PrecedesAt(a[1..], b[1..], i)
  {
    if PrecedesAt(a[1..], b[1..], i) {
      forall j | 0 <= j < i + 1
        ensures a[j] == b[j]
      {
        assert j > 0 ==> a[1..][j - 1] == b[1..][j - 1];
      }
    }
  }

  /** No byte of s is a control code; in particular none is the unit separator. */
  predicate NoControl(s: Bytes) {
    forall b | b in s :: b >= 0x20
  }
}
