/** The part of Go's unicode/utf8 that encoding/json relies on. */
module Utf8 {
  import opened Bytes

  const REPLACEMENT: Bytes := [0xEF, 0xBF, 0xBD]

  predicate Continuation(b: Byte) {
    0x80 <= b <= 0xBF
  }

  predicate ThreeByteLead(a: Byte, b: Byte) {
    || (a == 0xE0 && 0xA0 <= b <= 0xBF)
    || (0xE1 <= a <= 0xEF && a != 0xED && Continuation(b))
    || (a == 0xED && 0x80 <= b <= 0x9F)
  }

  predicate FourByteLead(a: Byte, b: Byte) {
    || (a == 0xF0 && 0x90 <= b <= 0xBF)
    || (0xF1 <= a <= 0xF3 && Continuation(b))
    || (a == 0xF4 && 0x80 <= b <= 0x8F)
  }

  /** Length of the well-formed rune at the front of s; 0 when there is none. */
  function RuneLength(s: Bytes): (n: nat)
    requires s != []
    ensures n <= |s|
  {
    if s[0] < 0x80 then 1
    else if |s| >= 2 && 0xC2 <= s[0] <= 0xDF && Continuation(s[1]) then 2
    else if |s| >= 3 && ThreeByteLead(s[0], s[1]) && Continuation(s[2]) then 3
    else if |s| >= 4 && FourByteLead(s[0], s[1]) && Continuation(s[2]) && Continuation(s[3]) then 4
    else 0
  }

  predicate Valid(s: Bytes) {
    s == [] || (RuneLength(s) > 0 && Valid(s[RuneLength(s)..]))
  }

  /** What survives a decode: every byte that starts no well-formed rune becomes U+FFFD. */
  function Sanitise(s: Bytes): Bytes {
    if s == [] then []
    else if RuneLength(s) == 0 then REPLACEMENT + Sanitise(s[1..])
    else s[..RuneLength(s)] + Sanitise(s[RuneLength(s)..])
  }

  predicate Scalar(cp: nat) {
    cp <= 0x10FFFF && !(0xD800 <= cp <= 0xDFFF)
  }

  function EncodeRune(cp: nat): Bytes
    requires Scalar(cp)
  {
    if cp < 0x80 then [cp]
    else if cp < 0x800 then [0xC0 + cp / 64, 0x80 + cp % 64]
    else if cp < 0x10000 then [0xE0 + cp / 4096, 0x80 + cp / 64 % 64, 0x80 + cp % 64]
    else [0xF0 + cp / 262144, 0x80 + cp / 4096 % 64, 0x80 + cp / 64 % 64, 0x80 + cp % 64]
  }

  predicate Rune(u: Bytes) {
    u != [] && RuneLength(u) == |u|
  }

  lemma EncodedIsRune(cp: nat)
    requires Scalar(cp)
    ensures Rune(EncodeRune(cp))
  {
  }

  /** A rune is recognised whatever follows it. */
  lemma RuneThen(u: Bytes, t: Bytes)
    requires Rune(u)
    ensures RuneLength(u + t) == |u|
    ensures (u + t)[..|u|] == u && (u + t)[|u|..] == t
  {
  }

  lemma ValidThen(u: Bytes, t: Bytes)
    requires Rune(u) && Valid(t)
    ensures Valid(u + t)
  {
    RuneThen(u, t);
  }

  lemma {:induction false} SanitiseValid(s: Bytes)
    ensures Valid(Sanitise(s))
    decreases |s|
  {
    if s == [] {
    } else {
      var n := RuneLength(s);
      if n == 0 {
        SanitiseValid(s[1..]);
        ValidThen(REPLACEMENT, Sanitise(s[1..]));
      } else {
        SanitiseValid(s[n..]);
        FrontIsRune(s);
        ValidThen(s[..n], Sanitise(s[n..]));
      }
    }
  }

  lemma FrontIsRune(s: Bytes)
    requires s != [] && RuneLength(s) > 0
    ensures Rune(s[..RuneLength(s)])
  {
  }

  lemma {:induction false} SanitiseGrows(s: Bytes)
    ensures |Sanitise(s)| >= |s|
    ensures Valid(s) ==> Sanitise(s) == s
    ensures !Valid(s) ==> Sanitise(s) != s
    decreases |s|
  {
    if s == [] {
    } else {
      var n := RuneLength(s);
      if n == 0 {
        SanitiseGrows(s[1..]);
        assert |Sanitise(s)| > |s|;
      } else {
        SanitiseGrows(s[n..]);
        assert s == s[..n] + s[n..];
        assert Sanitise(s)[n..] == Sanitise(s[n..]);
      }
    }
  }

  /** Decoding is lossless exactly on well-formed UTF-8, and its output is always well formed. */
  lemma SanitiseExact(s: Bytes)
    ensures Sanitise(s) == s <==> Valid(s)
    ensures Valid(Sanitise(s))
  {
    SanitiseGrows(s);
    SanitiseValid(s);
  }
}
