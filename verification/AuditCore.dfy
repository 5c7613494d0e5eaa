/** The hash-covered projection of an audit row and its canonical bytes. */
module AuditCore {
  import opened Bytes
  import Utf8
  import opened Decimal
  import opened CivilTime
  import opened JsonString
  import opened JsonText
  import opened JsonCanon
  import opened JsonLaws

  datatype Core = Core(
    id: int,
    teamId: Bytes,
    actorUserId: Option<Bytes>,
    source: Bytes,
    subjectType: Bytes,
    subjectId: Option<Bytes>,
    action: Bytes,
    args: Bytes,
    result: Bytes,
    previewId: Option<Bytes>,
    traceId: Bytes,
    outcome: Bytes,
    httpStatus: Option<int>,
    createdAt: Time
  )

  // ---- the encoder ----

  function NullableText(s: Option<Bytes>): Bytes {
    match s
    case None => NULL_TEXT
    case Some(t) => Quote(t)
  }

  function NullableInt(n: Option<int>): Bytes {
    match n
    case None => NULL_TEXT
    case Some(v) => FormatInt(v)
  }

  /** The fourteen encoded fields, in schema order. */
  function FieldTexts(c: Core, args: Bytes, result: Bytes): seq<Bytes> {
    [ FormatInt(c.id),
      Quote(c.teamId),
      NullableText(c.actorUserId),
      Quote(c.source),
      Quote(c.subjectType),
      NullableText(c.subjectId),
      Quote(c.action),
      args,
      result,
      NullableText(c.previewId),
      Quote(c.traceId),
      Quote(c.outcome),
      NullableInt(c.httpStatus),
      Quote(Format(TruncateMicro(c.createdAt))) ]
  }

  function Join(fields: seq<Bytes>): Bytes {
    if fields == [] then []
    else if |fields| == 1 then fields[0]
    else fields[0] + ([UNIT_SEPARATOR] + Join(fields[1..]))
  }

  /** None stands for the error raised when args or result is not JSON. */
  function CanonicalCore(norm: FloatText, c: Core): Option<Bytes> {
    match (CanonicalJson(norm, c.args), CanonicalJson(norm, c.result))
    case (Some(a), Some(r)) => Some(Join(FieldTexts(c, a, r)))
    case _ => None
  }

  /** The byte buffer CanonicalCore writes its fields to. */
  class FieldBuffer {
    var b: Bytes
    var first: bool
    ghost var fields: seq<Bytes>

    ghost predicate Valid()
      reads this
    {
      b == Join(fields) && first == (fields == [])
    }

    constructor ()
      ensures Valid() && fields == []
    {
      b, first, fields := [], true, [];
    }

    method WriteRaw(s: Bytes)
      requires Valid()
      modifies this
      ensures Valid() && fields == old(fields) + [s]
    {
      JoinAppend(fields, s);
      if !first {
        b := b + [UNIT_SEPARATOR];
      }
      first := false;
      b := b + s;
      fields := fields + [s];
    }
  }

  lemma {:induction false} JoinAppend(fields: seq<Bytes>, s: Bytes)
    ensures Join(fields + [s]) == if fields == [] then s else Join(fields) + [UNIT_SEPARATOR] + s
  {
    if fields == [] {
    } else {
      assert (fields + [s])[1..] == fields[1..] + [s];
      JoinAppend(fields[1..], s);
    }
  }

  method WriteActor(buffer: FieldBuffer, c: Core)
    requires buffer.Valid()
    modifies buffer
    ensures buffer.Valid() && buffer.fields == old(buffer.fields) + FieldTexts(c, [], [])[..4]
  {
    buffer.WriteRaw(FormatInt(c.id));
    buffer.WriteRaw(Quote(c.teamId));
    buffer.WriteRaw(NullableText(c.actorUserId));
    buffer.WriteRaw(Quote(c.source));
  }

  method WriteSubject(buffer: FieldBuffer, c: Core)
    requires buffer.Valid()
    modifies buffer
    ensures buffer.Valid() && buffer.fields == old(buffer.fields) + FieldTexts(c, [], [])[4..7]
  {
    buffer.WriteRaw(Quote(c.subjectType));
    buffer.WriteRaw(NullableText(c.subjectId));
    buffer.WriteRaw(Quote(c.action));
  }

  method WriteOutcome(buffer: FieldBuffer, c: Core)
    requires buffer.Valid()
    modifies buffer
    ensures buffer.Valid() && buffer.fields == old(buffer.fields) + FieldTexts(c, [], [])[9..]
  {
    buffer.WriteRaw(NullableText(c.previewId));
    buffer.WriteRaw(Quote(c.traceId));
    buffer.WriteRaw(Quote(c.outcome));
    buffer.WriteRaw(NullableInt(c.httpStatus));
    buffer.WriteRaw(Quote(Format(TruncateMicro(c.createdAt))));
  }

  method EncodeCore(norm: FloatText, c: Core) returns (r: Option<Bytes>)
    ensures r == CanonicalCore(norm, c)
  {
    var buffer := new FieldBuffer();
    WriteActor(buffer, c);
    WriteSubject(buffer, c);
    var args := CanonicalJson(norm, c.args);
    if args.None? {
      return None;
    }
    buffer.WriteRaw(args.value);
    var result := CanonicalJson(norm, c.result);
    if result.None? {
      return None;
    }
    buffer.WriteRaw(result.value);
    WriteOutcome(buffer, c);
    FieldGroups(c, args.value, result.value);
    assert buffer.fields == FieldTexts(c, args.value, result.value);
    return Some(buffer.b);
  }

  lemma FieldGroups(c: Core, a: Bytes, r: Bytes)
    ensures var f := FieldTexts(c, [], []); [] + f[..4] + f[4..7] + [a] + [r] + f[9..] == FieldTexts(c, a, r)
  {
  }

  // ---- splitting at the separator ----

  predicate NoSeparator(s: Bytes) {
    UNIT_SEPARATOR !in s
  }

  function Cut(s: Bytes): (n: nat)
    ensures n <= |s|
  {
    if s == [] || s[0] == UNIT_SEPARATOR then 0 else 1 + Cut(s[1..])
  }

  function Split(s: Bytes): seq<Bytes> {
    if Cut(s) == |s| then [s] else [s[..Cut(s)]] + Split(s[Cut(s) + 1..])
  }

  lemma {:induction false} CutExact(s: Bytes, t: Bytes)
    requires NoSeparator(s) && (t == [] || t[0] == UNIT_SEPARATOR)
    ensures Cut(s + t) == |s|
  {
    if s == [] {
      assert s + t == t;
    } else {
      assert (s + t)[1..] == s[1..] + t;
      CutExact(s[1..], t);
    }
  }

  lemma {:induction false} SplitJoin(fields: seq<Bytes>)
    requires fields != [] && forall f | f in fields :: NoSeparator(f)
    ensures Split(Join(fields)) == fields
  {
    if |fields| == 1 {
      CutExact(fields[0], []);
      assert fields[0] + [] == fields[0];
    } else {
      var t := [UNIT_SEPARATOR] + Join(fields[1..]);
      CutExact(fields[0], t);
      assert (fields[0] + t)[|fields[0]| + 1..] == Join(fields[1..]);
      SplitJoin(fields[1..]);
    }
  }

  // ---- reading the bytes back ----

  /** What a core says, read off its canonical bytes. */
  datatype Content = Content(
    id: int,
    teamId: Bytes,
    actorUserId: Option<Bytes>,
    source: Bytes,
    subjectType: Bytes,
    subjectId: Option<Bytes>,
    action: Bytes,
    args: Option<Json>,
    result: Option<Json>,
    previewId: Option<Bytes>,
    traceId: Bytes,
    outcome: Bytes,
    httpStatus: Option<int>,
    createdAt: seq<int>
  )

  function ReadText(f: Bytes): Bytes {
    if |f| >= 2 && Unquote(f[1..|f| - 1]).Some? then Unquote(f[1..|f| - 1]).value else []
  }

  function ReadNullableText(f: Bytes): Option<Bytes> {
    if f == NULL_TEXT then None else Some(ReadText(f))
  }

  function ReadNullableInt(f: Bytes): Option<int> {
    if f == NULL_TEXT then None else Some(ParseInt(f))
  }

  function ReadJson(norm: FloatText, f: Bytes): Option<Json> {
    if CanonicalJson(norm, f).Some? then Some(Meaning(norm, f)) else None
  }

  function ReadCore(norm: FloatText, b: Bytes): Option<Content> {
    var f := Split(b);
    if |f| != 14 then None
    else Some(Content(
      ParseInt(f[0]), ReadText(f[1]), ReadNullableText(f[2]), ReadText(f[3]), ReadText(f[4]),
      ReadNullableText(f[5]), ReadText(f[6]), ReadJson(norm, f[7]), ReadJson(norm, f[8]),
      ReadNullableText(f[9]), ReadText(f[10]), ReadText(f[11]), ReadNullableInt(f[12]),
      ReadFields(ReadText(f[13]))))
  }

  function SanitiseNullable(s: Option<Bytes>): Option<Bytes> {
    match s
    case None => None
    case Some(t) => Some(Utf8.Sanitise(t))
  }

  /** What a core says: its fields, with JSON documents as values and the timestamp to the microsecond. */
  function ContentOf(norm: FloatText, c: Core): Content {
    Content(
      c.id, Utf8.Sanitise(c.teamId), SanitiseNullable(c.actorUserId), Utf8.Sanitise(c.source),
      Utf8.Sanitise(c.subjectType), SanitiseNullable(c.subjectId), Utf8.Sanitise(c.action),
      ReadJson(norm, c.args), ReadJson(norm, c.result), SanitiseNullable(c.previewId),
      Utf8.Sanitise(c.traceId), Utf8.Sanitise(c.outcome), c.httpStatus,
      FieldsOf(TruncateMicro(c.createdAt)))
  }

  lemma ReadQuoted(s: Bytes)
    ensures ReadText(Quote(s)) == Utf8.Sanitise(s)
    ensures NoControl(Quote(s)) && NoSeparator(Quote(s)) && Quote(s) != NULL_TEXT
  {
    UnquoteEscape(s);
    EscapeNoControl(s);
    var q := Quote(s);
    assert q[1..|q| - 1] == Escape(s);
    assert q[0] == QUOTE;
  }

  lemma ReadNullable(s: Option<Bytes>)
    ensures ReadNullableText(NullableText(s)) == SanitiseNullable(s)
    ensures NoSeparator(NullableText(s))
  {
    if s.Some? {
      ReadQuoted(s.value);
    }
  }

  lemma ReadNullableStatus(n: Option<int>)
    ensures ReadNullableInt(NullableInt(n)) == n
    ensures NoSeparator(NullableInt(n))
  {
    if n.Some? {
      IntRoundTrip(n.value);
    }
  }

  lemma {:induction false} PlainValid(s: Bytes)
    requires Plain(s)
    ensures Utf8.Valid(s)
  {
    if s == [] {
    } else {
      assert s[0] in s && Utf8.RuneLength(s) == 1;
      assert forall b | b in s[1..] :: b in s;
      PlainValid(s[1..]);
    }
  }

  lemma ReadTime(t: Time)
    ensures ReadFields(ReadText(Quote(Format(t)))) == FieldsOf(t)
  {
    FormatPlain(t);
    PlainValid(Format(t));
    Utf8.SanitiseExact(Format(t));
    ReadQuoted(Format(t));
    TimeRoundTrip(t);
  }

  lemma ReadCanonical(norm: FloatText, raw: Bytes)
    requires CanonicalJson(norm, raw).Some?
    ensures ReadJson(norm, CanonicalJson(norm, raw).value) == ReadJson(norm, raw)
    ensures NoSeparator(CanonicalJson(norm, raw).value)
  {
    CanonicalIdempotent(norm, raw);
    CanonicalNoControl(norm, raw);
  }

  lemma FieldsPlain(c: Core, a: Bytes, r: Bytes)
    requires NoSeparator(a) && NoSeparator(r)
    ensures forall f | f in FieldTexts(c, a, r) :: NoSeparator(f)
  {
    IntRoundTrip(c.id);
    ReadQuoted(c.teamId);
    ReadNullable(c.actorUserId);
    ReadQuoted(c.source);
    ReadQuoted(c.subjectType);
    ReadNullable(c.subjectId);
    ReadQuoted(c.action);
    ReadNullable(c.previewId);
    ReadQuoted(c.traceId);
    ReadQuoted(c.outcome);
    ReadNullableStatus(c.httpStatus);
    ReadQuoted(Format(TruncateMicro(c.createdAt)));
  }

  /** Splitting at the separator and decoding each piece recovers everything a core says. */
  lemma CoreRoundTrip(norm: FloatText, c: Core)
    requires CanonicalCore(norm, c).Some?
    ensures ReadCore(norm, CanonicalCore(norm, c).value) == Some(ContentOf(norm, c))
  {
    var a, r := CanonicalJson(norm, c.args).value, CanonicalJson(norm, c.result).value;
    ReadCanonical(norm, c.args);
    ReadCanonical(norm, c.result);
    FieldsPlain(c, a, r);
    SplitJoin(FieldTexts(c, a, r));
    IntRoundTrip(c.id);
    ReadQuoted(c.teamId);
    ReadNullable(c.actorUserId);
    ReadQuoted(c.source);
    ReadQuoted(c.subjectType);
    ReadNullable(c.subjectId);
    ReadQuoted(c.action);
    ReadNullable(c.previewId);
    ReadQuoted(c.traceId);
    ReadQuoted(c.outcome);
    ReadNullableStatus(c.httpStatus);
    ReadTime(TruncateMicro(c.createdAt));
  }

  predicate NullableValid(s: Option<Bytes>) {
    s.Some? ==> Utf8.Valid(s.value)
  }

  /** Every text column is well-formed UTF-8, as a Postgres text column always is. */
  predicate TextsValid(c: Core) {
    && Utf8.Valid(c.teamId) && NullableValid(c.actorUserId) && Utf8.Valid(c.source)
    && Utf8.Valid(c.subjectType) && NullableValid(c.subjectId) && Utf8.Valid(c.action)
    && NullableValid(c.previewId) && Utf8.Valid(c.traceId) && Utf8.Valid(c.outcome)
  }

  lemma ContentTexts(norm: FloatText, c: Core)
    requires TextsValid(c)
    ensures ContentOf(norm, c) == Content(
      c.id, c.teamId, c.actorUserId, c.source, c.subjectType, c.subjectId, c.action,
      ReadJson(norm, c.args), ReadJson(norm, c.result), c.previewId, c.traceId, c.outcome, c.httpStatus,
      FieldsOf(TruncateMicro(c.createdAt)))
  {
    Utf8.SanitiseExact(c.teamId);
    Utf8.SanitiseExact(c.source);
    Utf8.SanitiseExact(c.subjectType);
    Utf8.SanitiseExact(c.action);
    Utf8.SanitiseExact(c.traceId);
    Utf8.SanitiseExact(c.outcome);
    if c.actorUserId.Some? { Utf8.SanitiseExact(c.actorUserId.value); }
    if c.subjectId.Some? { Utf8.SanitiseExact(c.subjectId.value); }
    if c.previewId.Some? { Utf8.SanitiseExact(c.previewId.value); }
  }

  /** Two cores have the same canonical bytes if and only if they say the same thing. */
  lemma CanonicalIffContent(norm: FloatText, c: Core, d: Core)
    requires CanonicalCore(norm, c).Some? && CanonicalCore(norm, d).Some?
    requires TextsValid(c) && TextsValid(d)
    ensures CanonicalCore(norm, c) == CanonicalCore(norm, d) <==> ContentOf(norm, c) == ContentOf(norm, d)
  {
    CoreRoundTrip(norm, c);
    CoreRoundTrip(norm, d);
    if ContentOf(norm, c) == ContentOf(norm, d) {
      ContentTexts(norm, c);
      ContentTexts(norm, d);
      CanonicalIffMeaning(norm, c.args, d.args);
      CanonicalIffMeaning(norm, c.result, d.result);
      SameFields(TruncateMicro(c.createdAt), TruncateMicro(d.createdAt));
    }
  }

  lemma SameFields(a: Time, b: Time)
    requires FieldsOf(a) == FieldsOf(b)
    ensures a == b
  {
    forall i | 0 <= i < 7
      ensures FieldsOf(a)[i] == FieldsOf(b)[i]
    {
    }
    assert FieldsOf(a)[0] == a.year && FieldsOf(a)[1] == a.month && FieldsOf(a)[2] == a.day;
    assert FieldsOf(a)[3] == a.hour && FieldsOf(a)[4] == a.minute && FieldsOf(a)[5] == a.second;
  }
}
