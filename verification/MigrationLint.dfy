/** The migration linter's first pass: SQL comments and string literals are blanked in place, so that the
    rules match code only and still report the right lines. */
module MigrationLint {
  import opened Bytes

  const SPACE: Byte := 0x20
  const NEWLINE: Byte := 0x0A
  const APOSTROPHE: Byte := 0x27
  const SLASH: Byte := 0x2F
  const STAR: Byte := 0x2A

  // ---- the lexer the linter stands for ----

  datatype Mode = Code | LineComment | BlockComment | Literal

  /** What one step of the lexer writes, as wide as what it reads, and the mode it leaves. */
  datatype Piece = Piece(text: Bytes, mode: Mode)

  function Blank(b: Byte): Byte {
    if b == NEWLINE then NEWLINE else SPACE
  }

  predicate Starts(s: Bytes, a: Byte, b: Byte) {
    |s| >= 2 && s[0] == a && s[1] == b
  }

  /** Outside comments and literals: only the byte that opens one is blanked. */
  function CodeStep(s: Bytes): Piece
    requires s != []
  {
    if Starts(s, DASH, DASH) then Piece([SPACE], LineComment)
    else if Starts(s, SLASH, STAR) then Piece([SPACE], BlockComment)
    else if s[0] == APOSTROPHE then Piece([SPACE], Literal)
    else Piece([s[0]], Code)
  }

  /** A block comment needs two bytes to close, so the last byte of an unterminated one is read as code;
      an unterminated literal loses its last byte even when that is a newline. */
  function Step(s: Bytes, mode: Mode): (p: Piece)
    requires s != []
    ensures 0 < |p.text| <= |s|
  {
    match mode
    case Code => CodeStep(s)
    case LineComment => if s[0] == NEWLINE then Piece([NEWLINE], Code) else Piece([SPACE], LineComment)
    case BlockComment =>
      if |s| == 1 then CodeStep(s)
      else if Starts(s, STAR, SLASH) then Piece([SPACE, SPACE], Code)
      else Piece([Blank(s[0])], BlockComment)
    case Literal =>
      if s[0] == APOSTROPHE then Piece([SPACE], Code)
      else if |s| == 1 then Piece([SPACE], Literal)
      else Piece([Blank(s[0])], Literal)
  }

  function Lex(s: Bytes, mode: Mode): Bytes
    decreases |s|
  {
    if s == [] then [] else Step(s, mode).text + Lex(s[|Step(s, mode).text|..], Step(s, mode).mode)
  }

  function Strip(s: Bytes): Bytes {
    Lex(s, Code)
  }

  /** Nothing moves: every byte is kept, or blanked to a space. */
  lemma {:induction false} LexKeepsOrBlanks(s: Bytes, mode: Mode)
    ensures |Lex(s, mode)| == |s|
    ensures forall k | 0 <= k < |s| :: Lex(s, mode)[k] == s[k] || Lex(s, mode)[k] == SPACE
    decreases |s|
  {
    if s == [] {
    } else {
      var p := Step(s, mode);
      LexKeepsOrBlanks(s[|p.text|..], p.mode);
      forall k | 0 <= k < |s|
        ensures Lex(s, mode)[k] == s[k] || Lex(s, mode)[k] == SPACE
      {
        if k >= |p.text| {
          assert s[|p.text|..][k - |p.text|] == s[k];
        }
      }
    }
  }

  // ---- the in-place pass ----

  /** Having read j bytes of s on the way to the output t, the lexer is in the given mode. */
  ghost predicate At(s: Bytes, t: Bytes, j: nat, mode: Mode) {
    j <= |s| == |t| && Lex(s[j..], mode) == t[j..]
  }

  lemma AtStep(s: Bytes, t: Bytes, j: nat, mode: Mode)
    requires j < |s| && At(s, t, j, mode)
    ensures var p := Step(s[j..], mode);
            && At(s, t, j + |p.text|, p.mode)
            && t[j] == p.text[0]
            && (|p.text| > 1 ==> t[j + 1] == p.text[1])
  {
    var p := Step(s[j..], mode);
    var n := |p.text|;
    var u := t[j..];
    assert u == p.text + Lex(s[j..][n..], p.mode);
    assert s[j..][n..] == s[j + n..] && u[n..] == t[j + n..];
    assert u[0] == t[j] && (n > 1 ==> u[1] == t[j + 1]);
  }

  lemma AtLine(s: Bytes, t: Bytes, j: nat)
    requires j < |s| && At(s, t, j, LineComment) && s[j] != NEWLINE
    ensures At(s, t, j + 1, LineComment) && t[j] == SPACE
  {
    AtStep(s, t, j, LineComment);
  }

  lemma AtBlock(s: Bytes, t: Bytes, j: nat)
    requires j + 1 < |s| && At(s, t, j, BlockComment)
    ensures !(s[j] == STAR && s[j + 1] == SLASH) ==> At(s, t, j + 1, BlockComment) && t[j] == Blank(s[j])
    ensures s[j] == STAR && s[j + 1] == SLASH ==> At(s, t, j + 2, Code) && t[j] == t[j + 1] == SPACE
  {
    AtStep(s, t, j, BlockComment);
  }

  lemma AtLiteral(s: Bytes, t: Bytes, j: nat)
    requires j < |s| && At(s, t, j, Literal)
    ensures s[j] == APOSTROPHE ==> At(s, t, j + 1, Code) && t[j] == SPACE
    ensures s[j] != APOSTROPHE ==> At(s, t, j + 1, Literal) && t[j] == if j + 1 == |s| then SPACE else Blank(s[j])
  {
    AtStep(s, t, j, Literal);
  }

  lemma AtQuote(s: Bytes, t: Bytes, j: nat)
    requires j < |s| && At(s, t, j, Code) && s[j] == APOSTROPHE
    ensures At(s, t, j + 1, Literal) && t[j] == SPACE
  {
    AtStep(s, t, j, Code);
  }

  lemma AtCode(s: Bytes, t: Bytes, j: nat)
    requires j < |s| && At(s, t, j, Code) && s[j] != APOSTROPHE
    requires j + 1 < |s| ==> !(s[j] == s[j + 1] == DASH) && !(s[j] == SLASH && s[j + 1] == STAR)
    ensures At(s, t, j + 1, Code) && t[j] == s[j]
  {
    AtStep(s, t, j, Code);
  }

  /** A comment's mode may be taken up at its first byte, and dropped where the loop over it stops. */
  lemma Edges(s: Bytes, t: Bytes, j: nat)
    requires j <= |s|
    ensures At(s, t, j, Code) && j + 1 < |s| && s[j] == s[j + 1] == DASH ==> At(s, t, j, LineComment)
    ensures At(s, t, j, LineComment) && (j == |s| || s[j] == NEWLINE) ==> At(s, t, j, Code)
    ensures At(s, t, j, Code) && j + 1 < |s| && s[j] == SLASH && s[j + 1] == STAR ==> At(s, t, j, BlockComment)
    ensures At(s, t, j, BlockComment) && j + 1 >= |s| ==> At(s, t, j, Code)
  {
  }

  /** The array holds the output up to j and the input from there on. */
  ghost predicate Done(out: array<Byte>, s: Bytes, t: Bytes, j: nat)
    reads out
  {
    && j <= out.Length == |s| == |t|
    && (forall k | 0 <= k < j :: out[k] == t[k])
    && (forall k | j <= k < |s| :: out[k] == s[k])
  }

  method BlankLineComment(out: array<Byte>, ghost s: Bytes, ghost t: Bytes, i: nat) returns (j: nat)
    requires Done(out, s, t, i) && At(s, t, i, Code) && i + 1 < |s| && s[i] == s[i + 1] == DASH
    modifies out
    ensures i < j && Done(out, s, t, j) && At(s, t, j, Code)
  {
    Edges(s, t, i);
    j := i;
    while j < out.Length && out[j] != NEWLINE
      invariant i <= j && Done(out, s, t, j) && At(s, t, j, LineComment)
    {
      AtLine(s, t, j);
      out[j] := SPACE;
      j := j + 1;
    }
    Edges(s, t, j);
  }

  /** Blanks one byte of a block comment or literal, unless it is a newline. */
  method SpareNewline(out: array<Byte>, ghost s: Bytes, ghost t: Bytes, j: nat)
    requires j < |s| && Done(out, s, t, j) && t[j] == Blank(s[j])
    modifies out
    ensures Done(out, s, t, j + 1)
  {
    if out[j] != NEWLINE {
      out[j] := SPACE;
    }
  }

  method BlankBlockBody(out: array<Byte>, ghost s: Bytes, ghost t: Bytes, i: nat) returns (j: nat)
    requires Done(out, s, t, i) && At(s, t, i, BlockComment)
    modifies out
    ensures i <= j && Done(out, s, t, j) && At(s, t, j, BlockComment)
    ensures j + 1 < |s| ==> s[j] == STAR && s[j + 1] == SLASH
  {
    j := i;
    while j + 1 < out.Length && !(out[j] == STAR && out[j + 1] == SLASH)
      invariant i <= j && Done(out, s, t, j) && At(s, t, j, BlockComment)
    {
      AtBlock(s, t, j);
      SpareNewline(out, s, t, j);
      j := j + 1;
    }
  }

  method BlankBlockComment(out: array<Byte>, ghost s: Bytes, ghost t: Bytes, i: nat) returns (j: nat)
    requires Done(out, s, t, i) && At(s, t, i, Code) && i + 1 < |s| && s[i] == SLASH && s[i + 1] == STAR
    modifies out
    ensures i < j && Done(out, s, t, j) && At(s, t, j, Code)
  {
    Edges(s, t, i);
    j := BlankBlockBody(out, s, t, i);
    Edges(s, t, j);
    if j + 1 < out.Length {
      AtBlock(s, t, j);
      out[j] := SPACE;
      out[j + 1] := SPACE;
      j := j + 2;
    }
  }

  /** What the array holds of a literal opened at i while the loop runs over it: the opening quote is still
      there, and a newline at the very end of the text is. */
  ghost function Pending(s: Bytes, t: Bytes, i: nat): (u: Bytes)
    requires i < |s| == |t|
    ensures |u| == |s|
    ensures forall k | 0 <= k < |s| - 1 && k != i :: u[k] == t[k]
    ensures u[i] == s[i] && (i < |s| - 1 ==> u[|s| - 1] == Blank(s[|s| - 1]))
  {
    t[|s| - 1 := Blank(s[|s| - 1])][i := s[i]]
  }

  lemma OpenLiteral(out: array<Byte>, s: Bytes, t: Bytes, i: nat)
    requires Done(out, s, t, i) && At(s, t, i, Code) && i < |s| && s[i] == APOSTROPHE
    ensures Done(out, s, Pending(s, t, i), i + 1) && At(s, t, i + 1, Literal) && t[i] == SPACE
  {
    AtQuote(s, t, i);
  }

  lemma WithinLiteral(s: Bytes, t: Bytes, i: nat, j: nat)
    requires i < j < |s| && At(s, t, j, Literal) && s[j] != APOSTROPHE
    ensures At(s, t, j + 1, Literal) && Pending(s, t, i)[j] == Blank(s[j]) && (j + 1 == |s| ==> t[j] == SPACE)
  {
    AtLiteral(s, t, j);
  }

  lemma CloseLiteral(s: Bytes, t: Bytes, j: nat)
    requires At(s, t, j, Literal) && (j < |s| ==> s[j] == APOSTROPHE)
    ensures if j < |s| then At(s, t, j + 1, Code) && t[j] == SPACE else At(s, t, j, Code)
  {
    if j < |s| {
      AtLiteral(s, t, j);
    }
  }

  method BlankLiteralBody(out: array<Byte>, ghost s: Bytes, ghost t: Bytes, i: nat) returns (j: nat)
    requires i < |s| == |t| && t[i] == SPACE
    requires Done(out, s, Pending(s, t, i), i + 1) && At(s, t, i + 1, Literal)
    modifies out
    ensures i < j && Done(out, s, Pending(s, t, i), j) && At(s, t, j, Literal)
    ensures if j < |s| then s[j] == APOSTROPHE else t[j - 1] == SPACE
  {
    j := i + 1;
    while j < out.Length && out[j] != APOSTROPHE
      invariant i < j && Done(out, s, Pending(s, t, i), j) && At(s, t, j, Literal)
      invariant j == |s| ==> t[j - 1] == SPACE
    {
      WithinLiteral(s, t, i, j);
      SpareNewline(out, s, Pending(s, t, i), j);
      j := j + 1;
    }
  }

  method BlankEnds(out: array<Byte>, ghost s: Bytes, ghost t: Bytes, i: nat, ghost m: nat, j: nat)
    requires i < m <= j <= m + 1 && j <= |s| == |t| && t[i] == t[j - 1] == SPACE
    requires Done(out, s, Pending(s, t, i), m)
    modifies out
    ensures Done(out, s, t, j)
  {
    out[i] := SPACE;
    if j - 1 > i {
      out[j - 1] := SPACE;
    }
  }

  method BlankLiteral(out: array<Byte>, ghost s: Bytes, ghost t: Bytes, i: nat) returns (j: nat)
    requires Done(out, s, t, i) && At(s, t, i, Code) && i < |s| && s[i] == APOSTROPHE
    modifies out
    ensures i < j && Done(out, s, t, j) && At(s, t, j, Code)
  {
    OpenLiteral(out, s, t, i);
    j := BlankLiteralBody(out, s, t, i);
    CloseLiteral(s, t, j);
    ghost var m := j;
    if j < out.Length {
      j := j + 1;
    }
    BlankEnds(out, s, t, i, m, j);
  }

  lemma Finished(s: Bytes, t: Bytes)
    requires t == Strip(s)
    ensures At(s, t, 0, Code)
  {
    LexKeepsOrBlanks(s, Code);
    assert s[0..] == s && t[0..] == t;
  }

  /** stripCommentsAndStrings computes exactly what the lexer does. */
  method StripCommentsAndStrings(s: Bytes) returns (r: Bytes)
    ensures r == Strip(s)
  {
    var out := new Byte[|s|](i requires 0 <= i < |s| => s[i]);
    ghost var t := Strip(s);
    Finished(s, t);
    var i := 0;
    while i < out.Length
      invariant i <= out.Length && Done(out, s, t, i) && At(s, t, i, Code)
      decreases out.Length - i
    {
      if i + 1 < out.Length && out[i] == DASH && out[i + 1] == DASH {
        i := BlankLineComment(out, s, t, i);
      } else if i + 1 < out.Length && out[i] == SLASH && out[i + 1] == STAR {
        i := BlankBlockComment(out, s, t, i);
      } else if out[i] == APOSTROPHE {
        i := BlankLiteral(out, s, t, i);
      } else {
        AtCode(s, t, i);
        i := i + 1;
      }
    }
    return out[..];
  }

  // ---- what stripping guarantees ----

  /** No comment opener and no quote. */
  predicate Tokenless(r: Bytes) {
    r == [] ||
    (r[0] != APOSTROPHE && !Starts(r, DASH, DASH) && !Starts(r, SLASH, STAR) && Tokenless(r[1..]))
  }

  lemma TokenlessCons(b: Byte, r: Bytes)
    requires Tokenless(r) && b != APOSTROPHE
    requires r != [] ==> !(b == DASH && r[0] == DASH) && !(b == SLASH && r[0] == STAR)
    ensures Tokenless([b] + r)
  {
    assert ([b] + r)[1..] == r;
  }

  /** What a piece ends with opens no token together with what can follow it. */
  lemma PieceEnd(s: Bytes, mode: Mode, next: Byte)
    requires s != []
    requires var n := |Step(s, mode).text|; n < |s| ==> next == s[n] || next == SPACE
    ensures var t := Step(s, mode).text; var b := t[|t| - 1];
            && b != APOSTROPHE
            && (|t| < |s| ==> !(b == DASH && next == DASH) && !(b == SLASH && next == STAR))
    ensures |Step(s, mode).text| == 2 ==> Step(s, mode).text == [SPACE, SPACE]
    ensures |Step(s, mode).text| <= 2
  {
  }

  /** The output has nothing left to strip. */
  lemma {:induction false} LexTokenless(s: Bytes, mode: Mode)
    ensures Tokenless(Lex(s, mode))
    decreases |s|
  {
    if s == [] {
    } else {
      var t := Step(s, mode).text;
      var rest := Lex(s[|t|..], Step(s, mode).mode);
      LexTokenless(s[|t|..], Step(s, mode).mode);
      LexKeepsOrBlanks(s[|t|..], Step(s, mode).mode);
      var next := if rest == [] then SPACE else rest[0];
      assert |t| < |s| ==> s[|t|..][0] == s[|t|];
      PieceEnd(s, mode, next);
      TokenlessPiece(t, rest);
    }
  }

  lemma TokenlessPiece(t: Bytes, rest: Bytes)
    requires Tokenless(rest) && (t == [SPACE, SPACE] || |t| == 1) && t[|t| - 1] != APOSTROPHE
    requires rest != [] ==> !(t[|t| - 1] == DASH && rest[0] == DASH) && !(t[|t| - 1] == SLASH && rest[0] == STAR)
    ensures Tokenless(t + rest)
  {
    TokenlessCons(t[|t| - 1], rest);
    if |t| == 2 {
      TokenlessCons(SPACE, [SPACE] + rest);
      assert t + rest == [SPACE] + ([SPACE] + rest);
    } else {
      assert t == [t[0]];
    }
  }

  lemma {:induction false} TokenlessFixed(r: Bytes)
    requires Tokenless(r)
    ensures Strip(r) == r
    decreases |r|
  {
    if r == [] {
    } else {
      TokenlessFixed(r[1..]);
    }
  }

  /** Stripping twice is stripping once; in fact exactly the texts without openers and quotes are unchanged. */
  lemma StripIdempotent(s: Bytes)
    ensures Strip(Strip(s)) == Strip(s)
    ensures Strip(s) == s <==> Tokenless(s)
  {
    LexTokenless(s, Code);
    TokenlessFixed(Strip(s));
    if Tokenless(s) {
      TokenlessFixed(s);
    }
  }

  // ---- lines ----

  /** The text ends inside an unterminated literal. */
  predicate EndsInLiteral(s: Bytes, mode: Mode)
    decreases |s|
  {
    s != [] && (
      if |s| == 1 then mode == Literal && s[0] != APOSTROPHE
      else EndsInLiteral(s[|Step(s, mode).text|..], Step(s, mode).mode))
  }

  /** Newlines are exactly preserved, but for the last byte of an unterminated literal. */
  lemma {:induction false} LexNewlines(s: Bytes, mode: Mode, k: nat)
    requires k < |s|
    ensures |Lex(s, mode)| == |s|
    ensures Lex(s, mode)[k] == NEWLINE <==> s[k] == NEWLINE && !(k == |s| - 1 && EndsInLiteral(s, mode))
    decreases |s|
  {
    LexKeepsOrBlanks(s, mode);
    var p := Step(s, mode);
    var n := |p.text|;
    if k >= n {
      LexNewlines(s[n..], p.mode, k - n);
    }
  }

  function CountNewlines(s: Bytes): nat {
    if s == [] then 0
    else CountNewlines(s[..|s| - 1]) + (if s[|s| - 1] == NEWLINE then 1 else 0)
  }

  /** The line a match at index idx is reported on. */
  function LineOf(src: Bytes, idx: nat): nat
    requires idx <= |src|
  {
    CountNewlines(src[..idx]) + 1
  }

  lemma {:induction false} SameLines(s: Bytes, idx: nat)
    requires idx < |s|
    ensures |Strip(s)| == |s| && LineOf(Strip(s), idx) == LineOf(s, idx)
  {
    LexKeepsOrBlanks(s, Code);
    if idx == 0 {
    } else {
      SameLines(s, idx - 1);
      LexNewlines(s, Code, idx - 1);
      assert s[..idx][..idx - 1] == s[..idx - 1] && Strip(s)[..idx][..idx - 1] == Strip(s)[..idx - 1];
    }
  }

  /** Only the line number just past the end can differ, and it does exactly when the file ends in a newline
      that an unterminated literal swallowed. */
  lemma LastLine(s: Bytes)
    ensures |Strip(s)| == |s|
    ensures LineOf(Strip(s), |s|) == LineOf(s, |s|) <==>
            !(s != [] && s[|s| - 1] == NEWLINE && EndsInLiteral(s, Code))
  {
    LexKeepsOrBlanks(s, Code);
    assert s[..|s|] == s && Strip(s)[..|s|] == Strip(s);
    if s != [] {
      var n := |s| - 1;
      SameLines(s, n);
      LexNewlines(s, Code, n);
    }
  }

  /** Where the newlines before idx are. */
  function NewlinesBefore(src: Bytes, idx: nat): set<int>
    requires idx <= |src|
  {
    set k | 0 <= k < idx && src[k] == 0x0A
  }

  /** Line numbers count the newlines before the match, from one. */
  lemma {:induction false} LineOfCounts(src: Bytes, idx: nat)
    requires idx <= |src|
    ensures LineOf(src, idx) == 1 + |NewlinesBefore(src, idx)|
  {
    if idx == 0 {
      assert NewlinesBefore(src, idx) == {};
    } else {
      var n := idx - 1;
      var before := NewlinesBefore(src, n);
      LineOfCounts(src, n);
      assert src[..idx][..n] == src[..n];
      assert NewlinesBefore(src, idx) == if src[n] == 0x0A then before + {n} else before;
    }
  }

  // ---- what comments and literals leave behind ----

  /** Nothing but the line breaks. */
  function Erased(body: Bytes): (r: Bytes)
    ensures |r| == |body|
  {
    seq(|body|, i requires 0 <= i < |body| => if body[i] == 0x0A then 0x0A else 0x20)
  }

  lemma ErasedCons(b: Byte, body: Bytes)
    ensures Erased([b] + body) == [Blank(b)] + Erased(body)
  {
  }

  /** No comment opener lies across the end of a text and the start of what follows. */
  predicate Seamless(pre: Bytes, rest: Bytes) {
    pre != [] && rest != [] ==>
      var b := pre[|pre| - 1];
      !(b == DASH && rest[0] == DASH) && !(b == SLASH && rest[0] == STAR)
  }

  /** No comment closer. */
  predicate Closerless(s: Bytes) {
    forall k | 0 <= k < |s| - 1 :: !(s[k] == STAR && s[k + 1] == SLASH)
  }

  lemma {:induction false} LexPre(pre: Bytes, rest: Bytes)
    requires Tokenless(pre) && Seamless(pre, rest)
    ensures Strip(pre + rest) == pre + Strip(rest)
    decreases |pre|
  {
    if pre == [] {
      assert pre + rest == rest;
    } else {
      SeamlessTail(pre, rest);
      CodeKept(pre + rest);
      LexPre(pre[1..], rest);
      Unshift(pre, rest);
      Unshift(pre, Strip(rest));
    }
  }

  lemma Unshift(pre: Bytes, s: Bytes)
    requires pre != []
    ensures (pre + s)[0] == pre[0] && (pre + s)[1..] == pre[1..] + s
    ensures [pre[0]] + (pre[1..] + s) == pre + s
  {
  }

  lemma SeamlessTail(pre: Bytes, rest: Bytes)
    requires pre != [] && Tokenless(pre) && Seamless(pre, rest)
    ensures var s := pre + rest; s[0] != APOSTROPHE && !Starts(s, DASH, DASH) && !Starts(s, SLASH, STAR)
    ensures Tokenless(pre[1..]) && Seamless(pre[1..], rest)
  {
    var s := pre + rest;
    assert |s| > 1 ==> s[1] == if |pre| > 1 then pre[1] else rest[0];
  }

  lemma CodeKept(s: Bytes)
    requires s != [] && s[0] != APOSTROPHE && !Starts(s, DASH, DASH) && !Starts(s, SLASH, STAR)
    ensures Strip(s) == [s[0]] + Strip(s[1..])
  {
  }

  lemma BlockBlanked(s: Bytes)
    requires |s| > 1 && !Starts(s, STAR, SLASH)
    ensures Lex(s, BlockComment) == [Blank(s[0])] + Lex(s[1..], BlockComment)
  {
  }

  lemma {:induction false} LexLine(body: Bytes, rest: Bytes)
    requires NEWLINE !in body && (rest == [] || rest[0] == NEWLINE)
    ensures Lex(body + rest, LineComment) == Erased(body) + Strip(rest)
    decreases |body|
  {
    if body == [] {
      assert body + rest == rest;
      LineEnds(rest);
    } else {
      var s := body + rest;
      assert s[0] == body[0] && s[1..] == body[1..] + rest && body == [body[0]] + body[1..];
      LexLine(body[1..], rest);
      ErasedCons(body[0], body[1..]);
    }
  }

  lemma LineEnds(rest: Bytes)
    requires rest == [] || rest[0] == NEWLINE
    ensures Lex(rest, LineComment) == Strip(rest)
  {
  }

  lemma {:induction false} LexLiteral(body: Bytes, post: Bytes)
    requires APOSTROPHE !in body
    ensures Lex(body + ([APOSTROPHE] + post), Literal) == Erased(body) + ([SPACE] + Strip(post))
    decreases |body|
  {
    var s := body + ([APOSTROPHE] + post);
    if body == [] {
      assert s == [APOSTROPHE] + post && s[1..] == post;
    } else {
      assert s[0] == body[0] && s[1..] == body[1..] + ([APOSTROPHE] + post) && body == [body[0]] + body[1..];
      LexLiteral(body[1..], post);
      ErasedCons(body[0], body[1..]);
    }
  }

  lemma {:induction false} LexOpenLiteral(body: Bytes)
    requires APOSTROPHE !in body && body != []
    ensures Lex(body, Literal) == Erased(body[..|body| - 1]) + [SPACE]
    decreases |body|
  {
    if |body| == 1 {
      assert Lex(body[1..], Literal) == [];
    } else {
      LexOpenLiteral(body[1..]);
      assert body[1..][..|body| - 2] == body[..|body| - 1][1..];
      assert body[..|body| - 1] == [body[0]] + body[..|body| - 1][1..];
      ErasedCons(body[0], body[..|body| - 1][1..]);
    }
  }

  lemma {:induction false} LexBlock(body: Bytes, tail: Bytes)
    requires Closerless(body) && Starts(tail, STAR, SLASH)
    ensures Lex(body + tail, BlockComment) == Erased(body) + Lex(tail, BlockComment)
    decreases |body|
  {
    if body == [] {
      assert body + tail == tail;
      assert Erased(body) + Lex(tail, BlockComment) == Lex(tail, BlockComment);
    } else {
      NoCloserYet(body, tail);
      BlockBlanked(body + tail);
      Unshift(body, tail);
      LexBlock(body[1..], tail);
      ErasedCons(body[0], body[1..]);
      assert [body[0]] + body[1..] == body;
    }
  }

  lemma NoCloserYet(body: Bytes, tail: Bytes)
    requires body != [] && Closerless(body) && Starts(tail, STAR, SLASH)
    ensures |body + tail| > 1 && !Starts(body + tail, STAR, SLASH) && Closerless(body[1..])
  {
    assert (body + tail)[1] == if |body| > 1 then body[1] else STAR;
  }

  lemma BlockCloses(post: Bytes)
    ensures Lex([STAR, SLASH] + post, BlockComment) == [SPACE, SPACE] + Strip(post)
  {
    assert ([STAR, SLASH] + post)[2..] == post;
  }

  /** The last byte of an unterminated block comment is read as code. */
  function LastOfBlock(b: Byte): Bytes {
    if b == APOSTROPHE then [SPACE] else [b]
  }

  lemma {:induction false} LexOpenBlock(body: Bytes)
    requires Closerless(body) && body != []
    ensures Lex(body, BlockComment) == Erased(body[..|body| - 1]) + LastOfBlock(body[|body| - 1])
    decreases |body|
  {
    if |body| == 1 {
      assert body[1..] == [];
    } else {
      LexOpenBlock(body[1..]);
      assert body[1..][..|body| - 2] == body[..|body| - 1][1..];
      assert body[..|body| - 1] == [body[0]] + body[..|body| - 1][1..];
      ErasedCons(body[0], body[..|body| - 1][1..]);
    }
  }

  lemma Opens(b: Byte, s: Bytes, mode: Mode)
    requires CodeStep([b] + s) == Piece([SPACE], mode)
    ensures Strip([b] + s) == [SPACE] + Lex(s, mode)
  {
    assert ([b] + s)[1..] == s;
  }

  /** A literal leaves a space for each quote and nothing of its text but the line breaks. */
  lemma LiteralErased(pre: Bytes, body: Bytes, post: Bytes)
    requires Tokenless(pre) && APOSTROPHE !in body
    ensures Strip(pre + ([APOSTROPHE] + (body + ([APOSTROPHE] + post))))
            == pre + ([SPACE] + (Erased(body) + ([SPACE] + Strip(post))))
  {
    var s := body + ([APOSTROPHE] + post);
    LexPre(pre, [APOSTROPHE] + s);
    Opens(APOSTROPHE, s, Literal);
    LexLiteral(body, post);
  }

  /** One that is not closed loses its last byte even if that is a line break. */
  lemma OpenLiteralErased(pre: Bytes, body: Bytes)
    requires Tokenless(pre) && APOSTROPHE !in body
    ensures Strip(pre + ([APOSTROPHE] + body))
            == pre + ([SPACE] + if body == [] then [] else Erased(body[..|body| - 1]) + [SPACE])
  {
    LexPre(pre, [APOSTROPHE] + body);
    Opens(APOSTROPHE, body, Literal);
    if body != [] {
      LexOpenLiteral(body);
    }
  }

  /** A line comment leaves spaces up to its line break. */
  lemma LineCommentErased(pre: Bytes, body: Bytes, rest: Bytes)
    requires Tokenless(pre) && Seamless(pre, [DASH]) && NEWLINE !in body && (rest == [] || rest[0] == NEWLINE)
    ensures Strip(pre + ([DASH] + ([DASH] + body + rest))) == pre + ([SPACE] + (Erased([DASH] + body) + Strip(rest)))
  {
    LexPre(pre, [DASH] + ([DASH] + body + rest));
    Opens(DASH, [DASH] + body + rest, LineComment);
    LexLine([DASH] + body, rest);
  }

  /** A block comment leaves spaces and line breaks. Its closer may use the star of its opener. */
  lemma BlockCommentErased(pre: Bytes, body: Bytes, post: Bytes)
    requires Tokenless(pre) && Closerless([STAR] + body)
    ensures Strip(pre + ([SLASH] + (([STAR] + body) + ([STAR, SLASH] + post))))
            == pre + ([SPACE] + (Erased([STAR] + body) + ([SPACE, SPACE] + Strip(post))))
    ensures Strip(pre + ([SLASH] + ([STAR, SLASH] + post))) == pre + ([SPACE] + ([SPACE, SPACE] + Strip(post)))
  {
    BlockFrom(pre, [STAR] + body, post);
    BlockFrom(pre, [], post);
    assert [] + ([STAR, SLASH] + post) == [STAR, SLASH] + post;
    assert Erased([]) + ([SPACE, SPACE] + Strip(post)) == [SPACE, SPACE] + Strip(post);
  }

  lemma BlockFrom(pre: Bytes, body: Bytes, post: Bytes)
    requires Tokenless(pre) && Closerless(body) && (body != [] ==> body[0] == STAR)
    ensures Strip(pre + ([SLASH] + (body + ([STAR, SLASH] + post))))
            == pre + ([SPACE] + (Erased(body) + ([SPACE, SPACE] + Strip(post))))
  {
    var s := body + ([STAR, SLASH] + post);
    assert s[0] == STAR;
    LexPre(pre, [SLASH] + s);
    Opens(SLASH, s, BlockComment);
    LexBlock(body, [STAR, SLASH] + post);
    BlockCloses(post);
  }

  /** One that is not closed leaves its last byte as if it were code. */
  lemma OpenBlockErased(pre: Bytes, body: Bytes)
    requires Tokenless(pre) && Closerless([STAR] + body)
    ensures var s := [STAR] + body;
            Strip(pre + ([SLASH] + s))
            == pre + ([SPACE] + (Erased(s[..|body|]) + if s[|body|] == APOSTROPHE then [SPACE] else [s[|body|]]))
  {
    var s := [STAR] + body;
    LexPre(pre, [SLASH] + s);
    Opens(SLASH, s, BlockComment);
    LexOpenBlock(s);
  }

  /** Those are all the cases: what a text has before its first quote or comment opener is kept as it is. */
  lemma {:induction false} FirstOpener(s: Bytes) returns (n: nat)
    requires !Tokenless(s)
    ensures n < |s| && Tokenless(s[..n]) && Seamless(s[..n], s[n..])
    ensures s[n] == APOSTROPHE || Starts(s[n..], DASH, DASH) || Starts(s[n..], SLASH, STAR)
    decreases |s|
  {
    if s[0] == APOSTROPHE || Starts(s, DASH, DASH) || Starts(s, SLASH, STAR) {
      n := 0;
      assert s[0..] == s;
    } else {
      var k := FirstOpener(s[1..]);
      n := k + 1;
      assert s[n..] == s[1..][k..] && s[..n] == [s[0]] + s[1..][..k] && s[..n][1..] == s[1..][..k];
      if k == 0 {
        assert s[..n] == [s[0]];
      } else {
        assert s[..n][|s[..n]| - 1] == s[1..][..k][k - 1];
        assert s[..n][1] == s[1];
      }
    }
  }
}
