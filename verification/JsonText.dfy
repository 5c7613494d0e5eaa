/** JSON documents: concrete syntax, the values they denote, and the canonical form hashed by the audit chain.

    Numbers are opaque: `norm` maps a number token to the token Go prints for the float64 it denotes, or
    None when the token overflows float64. */
module JsonText {
  import opened Bytes
  import opened JsonString

  /** What json.Unmarshal builds in an `any`. A Go map is its fields in increasing key order. */
  datatype Json =
    | Null
    | Bool(b: bool)
    | Number(token: Bytes)
    | String(text: Bytes)
    | Array(items: Items)
    | Object(fields: Fields)

  datatype Items = NoItems | Item(head: Json, tail: Items)

  datatype Fields = NoFields | Field(key: Bytes, value: Json, rest: Fields)

  /** Concrete syntax, with every insignificant space kept. */
  datatype Doc =
    | DNull
    | DTrue
    | DFalse
    | DNumber(token: Bytes)
    | DString(body: Bytes)
    | DEmptyArray(pad: Bytes)
    | DArray(elems: Elems)
    | DEmptyObject(pad: Bytes)
    | DObject(members: Members)

  /** A value with the spaces around it. */
  datatype Slot = Slot(before: Bytes, doc: Doc, after: Bytes)

  /** An object key with the spaces around it. */
  datatype Entry = Entry(before: Bytes, key: Bytes, after: Bytes)

  datatype Elems = LastElem(slot: Slot) | MoreElems(slot: Slot, tail: Elems)

  datatype Members = LastMember(entry: Entry, slot: Slot) | MoreMembers(entry: Entry, slot: Slot, tail: Members)

  const TRUE_TEXT: Bytes := [0x74, 0x72, 0x75, 0x65]
  const FALSE_TEXT: Bytes := [0x66, 0x61, 0x6C, 0x73, 0x65]
  const OPEN_ARRAY: Byte := 0x5B
  const CLOSE_ARRAY: Byte := 0x5D
  const OPEN_OBJECT: Byte := 0x7B
  const CLOSE_OBJECT: Byte := 0x7D

  predicate Space(b: Byte) {
    b == 0x20 || b == 0x09 || b == 0x0A || b == 0x0D
  }

  predicate Spaces(s: Bytes) {
    forall b | b in s :: Space(b)
  }

  predicate NumberByte(b: Byte) {
    IsDigit(b) || b == DASH || b == 0x2B || b == DOT || b == 0x65 || b == 0x45
  }

  /** The number grammar of section 6 of RFC 8259, as the states of Go's scanner. */
  datatype NumberState = Start | Minus | Zero | Int | Point | Frac | Exp | ExpSign | ExpInt

  predicate NumberFrom(st: NumberState, s: Bytes)
    decreases s
  {
    if s == [] then st in {Zero, Int, Frac, ExpInt}
    else
      var b, t := s[0], s[1..];
      match st
      case Start => (b == DASH && NumberFrom(Minus, t)) || (b == ZERO && NumberFrom(Zero, t))
                    || (0x31 <= b <= 0x39 && NumberFrom(Int, t))
      case Minus => (b == ZERO && NumberFrom(Zero, t)) || (0x31 <= b <= 0x39 && NumberFrom(Int, t))
      case Zero => (b == DOT && NumberFrom(Point, t)) || ((b == 0x65 || b == 0x45) && NumberFrom(Exp, t))
      case Int => (IsDigit(b) && NumberFrom(Int, t)) || (b == DOT && NumberFrom(Point, t))
                  || ((b == 0x65 || b == 0x45) && NumberFrom(Exp, t))
      case Point => IsDigit(b) && NumberFrom(Frac, t)
      case Frac => (IsDigit(b) && NumberFrom(Frac, t)) || ((b == 0x65 || b == 0x45) && NumberFrom(Exp, t))
      case Exp => ((b == 0x2B || b == DASH) && NumberFrom(ExpSign, t)) || (IsDigit(b) && NumberFrom(ExpInt, t))
      case ExpSign => IsDigit(b) && NumberFrom(ExpInt, t)
      case ExpInt => IsDigit(b) && NumberFrom(ExpInt, t)
  }

  predicate NumberToken(s: Bytes) {
    NumberFrom(Start, s)
  }

  lemma {:induction false} NumberBytes(st: NumberState, s: Bytes)
    requires NumberFrom(st, s)
    ensures forall b | b in s :: NumberByte(b)
    decreases s
  {
    if s == [] {
    } else {
      var next :| NumberFrom(next, s[1..]);
      NumberBytes(next, s[1..]);
      assert s == [s[0]] + s[1..];
    }
  }

  // ---- concrete syntax ----

  /** The text of d followed by t. */
  function TextThen(d: Doc, t: Bytes): Bytes {
    match d
    case DNull => NULL_TEXT + t
    case DTrue => TRUE_TEXT + t
    case DFalse => FALSE_TEXT + t
    case DNumber(token) => token + t
    case DString(body) => StringThen(body, t)
    case DEmptyArray(pad) => [OPEN_ARRAY] + (pad + ([CLOSE_ARRAY] + t))
    case DArray(elems) => [OPEN_ARRAY] + ElemsThen(elems, t)
    case DEmptyObject(pad) => [OPEN_OBJECT] + (pad + ([CLOSE_OBJECT] + t))
    case DObject(members) => [OPEN_OBJECT] + MembersThen(members, t)
  }

  function StringThen(body: Bytes, t: Bytes): Bytes {
    [QUOTE] + (body + ([QUOTE] + t))
  }

  function SlotThen(slot: Slot, t: Bytes): Bytes {
    slot.before + TextThen(slot.doc, slot.after + t)
  }

  function ElemsThen(es: Elems, t: Bytes): Bytes {
    match es
    case LastElem(slot) => SlotThen(slot, [CLOSE_ARRAY] + t)
    case MoreElems(slot, tail) => SlotThen(slot, [COMMA] + ElemsThen(tail, t))
  }

  function KeyThen(e: Entry, t: Bytes): Bytes {
    e.before + StringThen(e.key, e.after + ([COLON] + t))
  }

  function MembersThen(ms: Members, t: Bytes): Bytes
    decreases ms, 1
  {
    KeyThen(ms.entry, BindingThen(ms, t))
  }

  function BindingThen(ms: Members, t: Bytes): Bytes
    decreases ms, 0
  {
    match ms
    case LastMember(_, slot) => SlotThen(slot, [CLOSE_OBJECT] + t)
    case MoreMembers(_, slot, tail) => SlotThen(slot, [COMMA] + MembersThen(tail, t))
  }

  function Text(d: Doc): Bytes {
    TextThen(d, [])
  }

  predicate WellFormed(d: Doc) {
    match d
    case DNull => true
    case DTrue => true
    case DFalse => true
    case DNumber(token) => NumberToken(token)
    case DString(body) => Unquote(body).Some?
    case DEmptyArray(pad) => Spaces(pad)
    case DArray(elems) => ElemsWellFormed(elems)
    case DEmptyObject(pad) => Spaces(pad)
    case DObject(members) => MembersWellFormed(members)
  }

  predicate SlotWellFormed(slot: Slot) {
    Spaces(slot.before) && WellFormed(slot.doc) && Spaces(slot.after)
  }

  predicate EntryWellFormed(e: Entry) {
    Spaces(e.before) && Unquote(e.key).Some? && Spaces(e.after)
  }

  predicate ElemsWellFormed(es: Elems) {
    SlotWellFormed(es.slot) && (es.MoreElems? ==> ElemsWellFormed(es.tail))
  }

  predicate MembersWellFormed(ms: Members) {
    EntryWellFormed(ms.entry) && SlotWellFormed(ms.slot) && (ms.MoreMembers? ==> MembersWellFormed(ms.tail))
  }

  // ---- parsing ----

  datatype Parsed<T> = Parsed(value: T, rest: Bytes)

  function SpaceRun(t: Bytes): (n: nat)
    ensures n <= |t| && Spaces(t[..n]) && (n < |t| ==> !Space(t[n]))
  {
    if t != [] && Space(t[0]) then
      var n := 1 + SpaceRun(t[1..]);
      assert t[..n] == [t[0]] + t[1..][..n - 1];
      n
    else 0
  }

  function NumberRun(t: Bytes): (n: nat)
    ensures n <= |t| && (forall b | b in t[..n] :: NumberByte(b)) && (n < |t| ==> !NumberByte(t[n]))
  {
    if t != [] && NumberByte(t[0]) then
      var n := 1 + NumberRun(t[1..]);
      assert t[..n] == [t[0]] + t[1..][..n - 1];
      n
    else 0
  }

  function ParseLiteral(t: Bytes, text: Bytes, d: Doc): (r: Option<Parsed<Doc>>)
    requires text != []
    ensures r.Some? ==> |r.value.rest| < |t|
  {
    if text <= t then Some(Parsed(d, t[|text|..])) else None
  }

  function ParseString(t: Bytes): (r: Option<Parsed<Bytes>>)
    requires t != []
    ensures r.Some? ==> |r.value.rest| < |t|
  {
    match BodyLength(t[1..])
    case None => None
    case Some(n) => Some(Parsed(t[1..][..n], t[1..][n..][1..]))
  }

  function ParseNumber(t: Bytes): (r: Option<Parsed<Doc>>)
    ensures r.Some? ==> |r.value.rest| < |t|
  {
    var n := NumberRun(t);
    if n > 0 && NumberToken(t[..n]) then Some(Parsed(DNumber(t[..n]), t[n..])) else None
  }

  /** Parse one JSON value at the front of t; no leading space is accepted here. */
  function ParseDoc(t: Bytes): (r: Option<Parsed<Doc>>)
    ensures r.Some? ==> |r.value.rest| < |t|
    decreases |t|, 0
  {
    if t == [] then None
    else if t[0] == 0x6E then ParseLiteral(t, NULL_TEXT, DNull)
    else if t[0] == 0x74 then ParseLiteral(t, TRUE_TEXT, DTrue)
    else if t[0] == 0x66 then ParseLiteral(t, FALSE_TEXT, DFalse)
    else if t[0] == QUOTE then
      match ParseString(t)
      case None => None
      case Some(p) => Some(Parsed(DString(p.value), p.rest))
    else if t[0] == OPEN_ARRAY then ParseArray(t[1..])
    else if t[0] == OPEN_OBJECT then ParseObject(t[1..])
    else ParseNumber(t)
  }

  function ParseArray(t: Bytes): (r: Option<Parsed<Doc>>)
    ensures r.Some? ==> |r.value.rest| < |t|
    decreases |t|, 4
  {
    var n := SpaceRun(t);
    if n < |t| && t[n] == CLOSE_ARRAY then Some(Parsed(DEmptyArray(t[..n]), t[n..][1..]))
    else match ParseElems(t)
      case None => None
      case Some(p) => Some(Parsed(DArray(p.value), p.rest))
  }

  function ParseObject(t: Bytes): (r: Option<Parsed<Doc>>)
    ensures r.Some? ==> |r.value.rest| < |t|
    decreases |t|, 4
  {
    var n := SpaceRun(t);
    if n < |t| && t[n] == CLOSE_OBJECT then Some(Parsed(DEmptyObject(t[..n]), t[n..][1..]))
    else match ParseMembers(t)
      case None => None
      case Some(p) => Some(Parsed(DObject(p.value), p.rest))
  }

  /** A value with its spaces, up to the byte that must follow it. */
  function ParseSlot(t: Bytes): (r: Option<Parsed<Slot>>)
    ensures r.Some? ==> |r.value.rest| < |t| && r.value.rest != []
    decreases |t|, 1
  {
    var n := SpaceRun(t);
    match ParseDoc(t[n..])
    case None => None
    case Some(p) =>
      var m := SpaceRun(p.rest);
      if m == |p.rest| then None
      else Some(Parsed(Slot(t[..n], p.value, p.rest[..m]), p.rest[m..]))
  }

  function ParseElems(t: Bytes): (r: Option<Parsed<Elems>>)
    ensures r.Some? ==> |r.value.rest| < |t|
    decreases |t|, 2
  {
    match ParseSlot(t)
    case None => None
    case Some(p) =>
      if p.rest[0] == CLOSE_ARRAY then Some(Parsed(LastElem(p.value), p.rest[1..]))
      else if p.rest[0] != COMMA then None
      else match ParseElems(p.rest[1..])
        case None => None
        case Some(q) => Some(Parsed(MoreElems(p.value, q.value), q.rest))
  }

  function ParseKey(t: Bytes): (r: Option<Parsed<Entry>>)
    ensures r.Some? ==> |r.value.rest| < |t|
  {
    var n := SpaceRun(t);
    if n == |t| || t[n] != QUOTE then None
    else match ParseString(t[n..])
      case None => None
      case Some(k) =>
        var m := SpaceRun(k.rest);
        var u := k.rest[m..];
        if u == [] || u[0] != COLON then None
        else Some(Parsed(Entry(t[..n], k.value, k.rest[..m]), u[1..]))
  }

  function ParseMembers(t: Bytes): (r: Option<Parsed<Members>>)
    ensures r.Some? ==> |r.value.rest| < |t|
    decreases |t|, 3
  {
    match ParseKey(t)
    case None => None
    case Some(k) => ParseBinding(k.value, k.rest)
  }

  /** The rest of an object once the key e has been read. */
  function ParseBinding(e: Entry, t: Bytes): (r: Option<Parsed<Members>>)
    ensures r.Some? ==> |r.value.rest| < |t|
    decreases |t|, 2
  {
    match ParseSlot(t)
    case None => None
    case Some(p) =>
      if p.rest[0] == CLOSE_OBJECT then Some(Parsed(LastMember(e, p.value), p.rest[1..]))
      else if p.rest[0] != COMMA then None
      else match ParseMembers(p.rest[1..])
        case None => None
        case Some(q) => Some(Parsed(MoreMembers(e, p.value, q.value), q.rest))
  }

  // ---- the parser inverts the concrete syntax ----

  lemma {:induction false} SpaceRunExact(s: Bytes, t: Bytes)
    requires Spaces(s) && (t == [] || !Space(t[0]))
    ensures SpaceRun(s + t) == |s|
    ensures (s + t)[..|s|] == s && (s + t)[|s|..] == t
  {
    if s == [] {
      assert s + t == t;
    } else {
      assert (s + t)[1..] == s[1..] + t;
      SpaceRunExact(s[1..], t);
    }
  }

  lemma {:induction false} NumberRunExact(s: Bytes, t: Bytes)
    requires (forall b | b in s :: NumberByte(b)) && (t == [] || !NumberByte(t[0]))
    ensures NumberRun(s + t) == |s|
    ensures (s + t)[..|s|] == s && (s + t)[|s|..] == t
  {
    if s == [] {
      assert s + t == t;
    } else {
      assert (s + t)[1..] == s[1..] + t;
      NumberRunExact(s[1..], t);
    }
  }

  /** What may follow a value: nothing that would extend a number. */
  predicate Delimits(t: Bytes) {
    t == [] || !NumberByte(t[0])
  }

  /** The first byte of a value, which tells its kind. */
  predicate Opens(b: Byte) {
    !Space(b) && b != CLOSE_ARRAY && b != CLOSE_OBJECT
  }

  lemma TextOpens(d: Doc, t: Bytes)
    requires WellFormed(d)
    ensures TextThen(d, t) != [] && Opens(TextThen(d, t)[0])
  {
    if d.DNumber? {
      NumberOpens(d.token);
    }
  }

  lemma NumberOpens(token: Bytes)
    requires NumberToken(token)
    ensures token != [] && (IsDigit(token[0]) || token[0] == DASH)
  {
  }

  lemma PadDelimits(pad: Bytes, t: Bytes)
    requires Spaces(pad) && Delimits(t)
    ensures Delimits(pad + t)
  {
    if pad != [] {
      assert pad[0] in pad;
    } else {
      assert pad + t == t;
    }
  }

  lemma ParseStringText(body: Bytes, t: Bytes)
    requires Unquote(body).Some?
    ensures ParseString(StringThen(body, t)) == Some(Parsed(body, t))
  {
    var u := [QUOTE] + t;
    assert StringThen(body, t)[1..] == body + u;
    BodyLengthComplete(body, u);
    assert (body + u)[..|body|] == body && (body + u)[|body|..] == u && u[1..] == t;
  }

  lemma ParseNumberText(token: Bytes, t: Bytes)
    requires NumberToken(token) && Delimits(t)
    ensures ParseDoc(token + t) == Some(Parsed(DNumber(token), t))
  {
    NumberBytes(Start, token);
    NumberOpens(token);
    NumberRunExact(token, t);
    assert (token + t)[0] == token[0];
  }

  lemma ParseEmpty(pad: Bytes, t: Bytes)
    requires Spaces(pad)
    ensures ParseArray(pad + ([CLOSE_ARRAY] + t)) == Some(Parsed(DEmptyArray(pad), t))
    ensures ParseObject(pad + ([CLOSE_OBJECT] + t)) == Some(Parsed(DEmptyObject(pad), t))
  {
    var u, v := [CLOSE_ARRAY] + t, [CLOSE_OBJECT] + t;
    SpaceRunExact(pad, u);
    SpaceRunExact(pad, v);
    assert u[1..] == t && v[1..] == t;
  }

  lemma Unwrap(b: Byte, t: Bytes)
    ensures ([b] + t)[0] == b && ([b] + t)[1..] == t
  {
  }

  lemma ParseLiteralText(t: Bytes)
    ensures ParseDoc(NULL_TEXT + t) == Some(Parsed(DNull, t))
    ensures ParseDoc(TRUE_TEXT + t) == Some(Parsed(DTrue, t))
    ensures ParseDoc(FALSE_TEXT + t) == Some(Parsed(DFalse, t))
  {
    assert (NULL_TEXT + t)[4..] == t;
    assert (TRUE_TEXT + t)[4..] == t;
    assert (FALSE_TEXT + t)[5..] == t;
  }

  lemma Bracketed(t: Bytes)
    ensures ParseDoc([OPEN_ARRAY] + t) == ParseArray(t)
    ensures ParseDoc([OPEN_OBJECT] + t) == ParseObject(t)
  {
    Unwrap(OPEN_ARRAY, t);
    Unwrap(OPEN_OBJECT, t);
  }

  lemma Quoted(body: Bytes, t: Bytes)
    requires Unquote(body).Some?
    ensures ParseDoc(StringThen(body, t)) == Some(Parsed(DString(body), t))
  {
    ParseStringText(body, t);
  }

  lemma {:induction false} ParseText(d: Doc, t: Bytes)
    requires WellFormed(d) && Delimits(t)
    ensures ParseDoc(TextThen(d, t)) == Some(Parsed(d, t))
    decreases d, 0
  {
    match d
    case DNull => ParseLiteralText(t);
    case DTrue => ParseLiteralText(t);
    case DFalse => ParseLiteralText(t);
    case DNumber(token) => ParseNumberText(token, t);
    case DString(body) => Quoted(body, t);
    case DEmptyArray(pad) =>
      Bracketed(pad + ([CLOSE_ARRAY] + t));
      ParseEmpty(pad, t);
    case DArray(elems) =>
      Bracketed(ElemsThen(elems, t));
      ParseElemsText(elems, t);
    case DEmptyObject(pad) =>
      Bracketed(pad + ([CLOSE_OBJECT] + t));
      ParseEmpty(pad, t);
    case DObject(members) =>
      Bracketed(MembersThen(members, t));
      ParseMembersText(members, t);
  }

  /** The byte after a slot: a comma or a closing bracket. */
  predicate Closes(t: Bytes) {
    t != [] && t[0] in {COMMA, CLOSE_ARRAY, CLOSE_OBJECT}
  }

  lemma {:induction false} ParseSlotText(slot: Slot, t: Bytes)
    requires SlotWellFormed(slot) && Closes(t)
    ensures ParseSlot(SlotThen(slot, t)) == Some(Parsed(slot, t))
    ensures var s := SlotThen(slot, t); var n := SpaceRun(s); n < |s| && Opens(s[n])
    decreases slot, 1
  {
    TextOpens(slot.doc, slot.after + t);
    SpaceRunExact(slot.before, TextThen(slot.doc, slot.after + t));
    PadDelimits(slot.after, t);
    ParseText(slot.doc, slot.after + t);
    SpaceRunExact(slot.after, t);
  }

  lemma {:induction false} ParseElemsText(es: Elems, t: Bytes)
    requires ElemsWellFormed(es)
    ensures ParseElems(ElemsThen(es, t)) == Some(Parsed(es, t))
    ensures ParseArray(ElemsThen(es, t)) == Some(Parsed(DArray(es), t))
    decreases es, 2
  {
    if es.LastElem? {
      ParseSlotText(es.slot, [CLOSE_ARRAY] + t);
      Unwrap(CLOSE_ARRAY, t);
    } else {
      var u := ElemsThen(es.tail, t);
      ParseSlotText(es.slot, [COMMA] + u);
      Unwrap(COMMA, u);
      ParseElemsText(es.tail, t);
    }
  }

  lemma ParseKeyText(e: Entry, t: Bytes)
    requires EntryWellFormed(e)
    ensures ParseKey(KeyThen(e, t)) == Some(Parsed(e, t))
    ensures var s := KeyThen(e, t); var n := SpaceRun(s); n < |s| && s[n] == QUOTE
  {
    var u := [COLON] + t;
    SpaceRunExact(e.before, StringThen(e.key, e.after + u));
    ParseStringText(e.key, e.after + u);
    SpaceRunExact(e.after, u);
    Unwrap(COLON, t);
  }

  lemma {:induction false} ParseBindingText(ms: Members, t: Bytes)
    requires MembersWellFormed(ms)
    ensures ParseBinding(ms.entry, BindingThen(ms, t)) == Some(Parsed(ms, t))
    decreases ms, 2
  {
    if ms.LastMember? {
      ParseSlotText(ms.slot, [CLOSE_OBJECT] + t);
      Unwrap(CLOSE_OBJECT, t);
    } else {
      var u := MembersThen(ms.tail, t);
      ParseSlotText(ms.slot, [COMMA] + u);
      Unwrap(COMMA, u);
      ParseMembersText(ms.tail, t);
    }
  }

  lemma {:induction false} ParseMembersText(ms: Members, t: Bytes)
    requires MembersWellFormed(ms)
    ensures ParseMembers(MembersThen(ms, t)) == Some(Parsed(ms, t))
    ensures ParseObject(MembersThen(ms, t)) == Some(Parsed(DObject(ms), t))
    decreases ms, 3
  {
    ParseKeyText(ms.entry, BindingThen(ms, t));
    ParseBindingText(ms, t);
  }

  // ---- and accepts nothing else ----

  lemma ParseStringSound(t: Bytes)
    requires t != [] && t[0] == QUOTE && ParseString(t).Some?
    ensures var p := ParseString(t).value; Unquote(p.value).Some? && t == StringThen(p.value, p.rest)
  {
    var s := t[1..];
    var n := BodyLength(s).value;
    BodyLengthSound(s);
    Split(t, 0);
    Split(s, n);
  }

  lemma {:induction false} ParseSound(t: Bytes)
    requires ParseDoc(t).Some?
    ensures var p := ParseDoc(t).value; WellFormed(p.value) && t == TextThen(p.value, p.rest)
    decreases |t|, 0
  {
    if t[0] == QUOTE {
      ParseStringSound(t);
    } else if t[0] == OPEN_ARRAY {
      ParseArraySound(t[1..]);
    } else if t[0] == OPEN_OBJECT {
      ParseObjectSound(t[1..]);
    }
  }

  lemma {:induction false} ParseArraySound(t: Bytes)
    requires ParseArray(t).Some?
    ensures var p := ParseArray(t).value; WellFormed(p.value) && [OPEN_ARRAY] + t == TextThen(p.value, p.rest)
    decreases |t|, 4
  {
    var n := SpaceRun(t);
    if n < |t| && t[n] == CLOSE_ARRAY {
      Split(t, n);
    } else {
      ParseElemsSound(t);
    }
  }

  lemma {:induction false} ParseObjectSound(t: Bytes)
    requires ParseObject(t).Some?
    ensures var p := ParseObject(t).value; WellFormed(p.value) && [OPEN_OBJECT] + t == TextThen(p.value, p.rest)
    decreases |t|, 4
  {
    var n := SpaceRun(t);
    if n < |t| && t[n] == CLOSE_OBJECT {
      Split(t, n);
    } else {
      ParseMembersSound(t);
    }
  }

  lemma Split(t: Bytes, n: nat)
    requires n <= |t|
    ensures t == t[..n] + t[n..]
    ensures n < |t| ==> t[n..] == [t[n]] + t[n..][1..]
  {
  }

  lemma {:induction false} ParseSlotSound(t: Bytes)
    requires ParseSlot(t).Some?
    ensures var p := ParseSlot(t).value; SlotWellFormed(p.value) && t == SlotThen(p.value, p.rest)
    decreases |t|, 1
  {
    var n := SpaceRun(t);
    var p := ParseDoc(t[n..]).value;
    ParseSound(t[n..]);
    Split(t, n);
    Split(p.rest, SpaceRun(p.rest));
  }

  lemma {:induction false} ParseElemsSound(t: Bytes)
    requires ParseElems(t).Some?
    ensures var p := ParseElems(t).value; ElemsWellFormed(p.value) && t == ElemsThen(p.value, p.rest)
    decreases |t|, 2
  {
    ParseSlotSound(t);
    var p := ParseSlot(t).value;
    Split(p.rest, 0);
    if p.rest[0] == COMMA {
      ParseElemsSound(p.rest[1..]);
    }
  }

  lemma ParseKeySound(t: Bytes)
    requires ParseKey(t).Some?
    ensures var p := ParseKey(t).value; EntryWellFormed(p.value) && t == KeyThen(p.value, p.rest)
  {
    var n := SpaceRun(t);
    ParseStringSound(t[n..]);
    Split(t, n);
    var k := ParseString(t[n..]).value;
    Split(k.rest, SpaceRun(k.rest));
  }

  lemma {:induction false} ParseBindingSound(e: Entry, t: Bytes)
    requires EntryWellFormed(e) && ParseBinding(e, t).Some?
    ensures var p := ParseBinding(e, t).value;
            MembersWellFormed(p.value) && p.value.entry == e && t == BindingThen(p.value, p.rest)
    decreases |t|, 2
  {
    ParseSlotSound(t);
    var p := ParseSlot(t).value;
    Split(p.rest, 0);
    if p.rest[0] == COMMA {
      ParseMembersSound(p.rest[1..]);
    }
  }

  lemma {:induction false} ParseMembersSound(t: Bytes)
    requires ParseMembers(t).Some?
    ensures var p := ParseMembers(t).value; MembersWellFormed(p.value) && t == MembersThen(p.value, p.rest)
    decreases |t|, 3
  {
    ParseKeySound(t);
    var k := ParseKey(t).value;
    ParseBindingSound(k.value, k.rest);
  }
}
