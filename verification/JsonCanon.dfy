/** The canonical form the audit chain hashes: parse, then print with sorted keys and no spaces. */
module JsonCanon {
  import opened Bytes
  import Utf8
  import opened JsonString
  import opened JsonText

  /** Go's printing of the float64 a number token denotes; None when it overflows. */
  type FloatText = f: Bytes -> Option<Bytes> | FloatLaw(f)
    witness (t: Bytes) => if NumberToken(t) then Some(t) else None

  /** What is printed is again a number token, and printing it once more changes nothing. */
  ghost predicate FloatLaw(f: Bytes -> Option<Bytes>) {
    forall t :: f(t).Some? ==> NumberToken(f(t).value) && f(f(t).value) == f(t)
  }

  // ---- values ----

  predicate NumbersFit(norm: FloatText, d: Doc) {
    match d
    case DNumber(token) => norm(token).Some?
    case DArray(elems) => ElemsFit(norm, elems)
    case DObject(members) => MembersFit(norm, members)
    case _ => true
  }

  predicate ElemsFit(norm: FloatText, es: Elems) {
    NumbersFit(norm, es.slot.doc) && (es.MoreElems? ==> ElemsFit(norm, es.tail))
  }

  predicate MembersFit(norm: FloatText, ms: Members) {
    NumbersFit(norm, ms.slot.doc) && (ms.MoreMembers? ==> MembersFit(norm, ms.tail))
  }

  /** Assignment into a Go map: a later binding of the same key replaces the earlier one. */
  function Put(key: Bytes, value: Json, fs: Fields): Fields {
    match fs
    case NoFields => Field(key, value, NoFields)
    case Field(k, v, rest) =>
      if key == k then Field(key, value, rest)
      else if Less(key, k) then Field(key, value, fs)
      else Field(k, v, Put(key, value, rest))
  }

  function Lookup(key: Bytes, fs: Fields): Option<Json> {
    match fs
    case NoFields => None
    case Field(k, v, rest) => if key == k then Some(v) else Lookup(key, rest)
  }

  /** The value json.Unmarshal builds from a document. */
  function Denote(norm: FloatText, d: Doc): Json
    requires WellFormed(d) && NumbersFit(norm, d)
  {
    match d
    case DNull => Null
    case DTrue => Bool(true)
    case DFalse => Bool(false)
    case DNumber(token) => Number(norm(token).value)
    case DString(body) => String(Unquote(body).value)
    case DEmptyArray(_) => Array(NoItems)
    case DArray(elems) => Array(DenoteElems(norm, elems))
    case DEmptyObject(_) => Object(NoFields)
    case DObject(members) => Object(DenoteMembers(norm, members, NoFields))
  }

  function DenoteElems(norm: FloatText, es: Elems): Items
    requires ElemsWellFormed(es) && ElemsFit(norm, es)
  {
    assert SlotWellFormed(es.slot);
    var head := Denote(norm, es.slot.doc);
    match es
    case LastElem(_) => Item(head, NoItems)
    case MoreElems(_, tail) => Item(head, DenoteElems(norm, tail))
  }

  function DenoteMembers(norm: FloatText, ms: Members, acc: Fields): Fields
    requires MembersWellFormed(ms) && MembersFit(norm, ms)
  {
    assert SlotWellFormed(ms.slot);
    var fs := Put(Unquote(ms.entry.key).value, Denote(norm, ms.slot.doc), acc);
    match ms
    case LastMember(_, _) => fs
    case MoreMembers(_, _, tail) => DenoteMembers(norm, tail, fs)
  }

  /** What every value built by json.Unmarshal satisfies. */
  predicate Normal(norm: FloatText, v: Json) {
    match v
    case Null => true
    case Bool(_) => true
    case Number(token) => norm(token) == Some(token)
    case String(text) => Utf8.Valid(text)
    case Array(items) => ItemsNormal(norm, items)
    case Object(fields) => FieldsNormal(norm, fields)
  }

  predicate ItemsNormal(norm: FloatText, items: Items) {
    items.Item? ==> Normal(norm, items.head) && ItemsNormal(norm, items.tail)
  }

  predicate FieldsNormal(norm: FloatText, fs: Fields) {
    fs.Field? ==>
      && Utf8.Valid(fs.key) && Normal(norm, fs.value)
      && FieldsNormal(norm, fs.rest) && Above(fs.key, fs.rest)
  }

  /** The keys of fs, being sorted, all come after key. */
  predicate Above(key: Bytes, fs: Fields) {
    fs.Field? ==> Less(key, fs.key)
  }

  // ---- printing ----

  /** json.Marshal, as a document without spaces. */
  function Render(v: Json): Doc {
    match v
    case Null => DNull
    case Bool(b) => if b then DTrue else DFalse
    case Number(token) => DNumber(token)
    case String(text) => DString(Escape(text))
    case Array(items) => if items.NoItems? then DEmptyArray([]) else DArray(RenderItems(items))
    case Object(fields) => if fields.NoFields? then DEmptyObject([]) else DObject(RenderFields(fields))
  }

  function RenderItems(items: Items): Elems
    requires items.Item?
  {
    var slot := Slot([], Render(items.head), []);
    if items.tail.NoItems? then LastElem(slot) else MoreElems(slot, RenderItems(items.tail))
  }

  function RenderFields(fs: Fields): Members
    requires fs.Field?
  {
    var entry, slot := Entry([], Escape(fs.key), []), Slot([], Render(fs.value), []);
    if fs.rest.NoFields? then LastMember(entry, slot) else MoreMembers(entry, slot, RenderFields(fs.rest))
  }

  function Print(v: Json): Bytes {
    Text(Render(v))
  }

  // ---- canonicalJSON ----

  predicate Blank(b: Byte) {
    b == 0x20 || 0x09 <= b <= 0x0D
  }

  function TrimLeft(s: Bytes): Bytes {
    if s != [] && Blank(s[0]) then TrimLeft(s[1..]) else s
  }

  function TrimRight(s: Bytes): Bytes {
    if s != [] && Blank(s[|s| - 1]) then TrimRight(s[..|s| - 1]) else s
  }

  function TrimSpace(s: Bytes): Bytes {
    TrimRight(TrimLeft(s))
  }

  /** None stands for the error json.Unmarshal reports. */
  function CanonicalJson(norm: FloatText, raw: Bytes): Option<Bytes> {
    var trimmed := TrimSpace(raw);
    if trimmed == [] || trimmed == NULL_TEXT then Some(NULL_TEXT)
    else match ParseDoc(trimmed)
      case None => None
      case Some(p) =>
        ParseSound(trimmed);
        if p.rest == [] && NumbersFit(norm, p.value) then Some(Print(Denote(norm, p.value))) else None
  }

  // ---- decoding yields normal values ----

  lemma {:induction false} PutNormal(norm: FloatText, key: Bytes, value: Json, fs: Fields)
    requires Utf8.Valid(key) && Normal(norm, value) && FieldsNormal(norm, fs)
    ensures FieldsNormal(norm, Put(key, value, fs))
    ensures forall k | Less(k, key) && Above(k, fs) :: Above(k, Put(key, value, fs))
  {
    if fs.Field? {
      LessTrichotomy(key, fs.key);
      PutNormal(norm, key, value, fs.rest);
    }
  }

  lemma {:induction false} DenoteNormal(norm: FloatText, d: Doc)
    requires WellFormed(d) && NumbersFit(norm, d)
    ensures Normal(norm, Denote(norm, d))
    decreases d
  {
    match d
    case DString(body) => UnquoteValid(body);
    case DArray(elems) => DenoteElemsNormal(norm, elems);
    case DObject(members) => DenoteMembersNormal(norm, members, NoFields);
    case _ =>
  }

  lemma {:induction false} DenoteElemsNormal(norm: FloatText, es: Elems)
    requires ElemsWellFormed(es) && ElemsFit(norm, es)
    ensures ItemsNormal(norm, DenoteElems(norm, es))
    decreases es
  {
    DenoteNormal(norm, es.slot.doc);
    if es.MoreElems? {
      DenoteElemsNormal(norm, es.tail);
    }
  }

  lemma {:induction false} DenoteMembersNormal(norm: FloatText, ms: Members, acc: Fields)
    requires MembersWellFormed(ms) && MembersFit(norm, ms) && FieldsNormal(norm, acc)
    ensures FieldsNormal(norm, DenoteMembers(norm, ms, acc))
    decreases ms
  {
    var key, value := Unquote(ms.entry.key).value, Denote(norm, ms.slot.doc);
    UnquoteValid(ms.entry.key);
    DenoteNormal(norm, ms.slot.doc);
    PutNormal(norm, key, value, acc);
    if ms.MoreMembers? {
      DenoteMembersNormal(norm, ms.tail, Put(key, value, acc));
    }
  }

  // ---- printing a normal value and decoding it again gives it back ----

  lemma {:induction false} RenderFits(norm: FloatText, v: Json)
    requires Normal(norm, v)
    ensures WellFormed(Render(v)) && NumbersFit(norm, Render(v))
    decreases v
  {
    match v
    case String(text) => UnquoteEscape(text);
    case Array(items) => if items.Item? { RenderItemsFits(norm, items); }
    case Object(fields) => if fields.Field? { RenderFieldsFits(norm, fields); }
    case _ =>
  }

  lemma {:induction false} RenderItemsFits(norm: FloatText, items: Items)
    requires items.Item? && ItemsNormal(norm, items)
    ensures ElemsWellFormed(RenderItems(items)) && ElemsFit(norm, RenderItems(items))
    decreases items
  {
    RenderFits(norm, items.head);
    if items.tail.Item? {
      RenderItemsFits(norm, items.tail);
    }
  }

  lemma {:induction false} RenderFieldsFits(norm: FloatText, fs: Fields)
    requires fs.Field? && FieldsNormal(norm, fs)
    ensures MembersWellFormed(RenderFields(fs)) && MembersFit(norm, RenderFields(fs))
    decreases fs
  {
    UnquoteEscape(fs.key);
    RenderFits(norm, fs.value);
    if fs.rest.Field? {
      RenderFieldsFits(norm, fs.rest);
    }
  }

  lemma {:induction false} DenoteRender(norm: FloatText, v: Json)
    requires Normal(norm, v)
    ensures WellFormed(Render(v)) && NumbersFit(norm, Render(v)) && Denote(norm, Render(v)) == v
    decreases v
  {
    RenderFits(norm, v);
    match v
    case String(text) => StringRoundTrip(text);
    case Array(items) => if items.Item? { DenoteRenderItems(norm, items); }
    case Object(fields) =>
      if fields.Field? {
        DenoteRenderFields(norm, fields, NoFields);
      }
    case _ =>
  }

  lemma {:induction false} DenoteRenderItems(norm: FloatText, items: Items)
    requires items.Item? && ItemsNormal(norm, items)
    ensures ElemsWellFormed(RenderItems(items)) && ElemsFit(norm, RenderItems(items))
    ensures DenoteElems(norm, RenderItems(items)) == items
    decreases items
  {
    RenderItemsFits(norm, items);
    DenoteRender(norm, items.head);
    if items.tail.Item? {
      DenoteRenderItems(norm, items.tail);
    }
  }

  function Append(a: Fields, b: Fields): Fields {
    match a
    case NoFields => b
    case Field(k, v, rest) => Field(k, v, Append(rest, b))
  }

  /** Every key of a comes before key. */
  predicate Below(a: Fields, key: Bytes) {
    a.Field? ==> Less(a.key, key) && Below(a.rest, key)
  }

  lemma {:induction false} PutLast(a: Fields, key: Bytes, value: Json)
    requires Below(a, key)
    ensures Put(key, value, a) == Append(a, Field(key, value, NoFields))
  {
    if a.Field? {
      LessTrichotomy(a.key, key);
      LessTrichotomy(key, key);
      PutLast(a.rest, key, value);
    }
  }

  lemma {:induction false} BelowNext(a: Fields, key: Bytes, value: Json, next: Bytes)
    requires Below(a, key) && Less(key, next)
    ensures Below(Append(a, Field(key, value, NoFields)), next)
  {
    if a.Field? {
      LessTransitive(a.key, key, next);
      BelowNext(a.rest, key, value, next);
    }
  }

  lemma {:induction false} AppendField(a: Fields, key: Bytes, value: Json, b: Fields)
    ensures Append(Append(a, Field(key, value, NoFields)), b) == Append(a, Field(key, value, b))
  {
    if a.Field? {
      AppendField(a.rest, key, value, b);
    }
  }

  lemma {:induction false} DenoteRenderFields(norm: FloatText, fs: Fields, acc: Fields)
    requires fs.Field? && FieldsNormal(norm, fs) && Below(acc, fs.key)
    ensures MembersWellFormed(RenderFields(fs)) && MembersFit(norm, RenderFields(fs))
    ensures DenoteMembers(norm, RenderFields(fs), acc) == Append(acc, fs)
    decreases fs
  {
    RenderFieldsFits(norm, fs);
    StringRoundTrip(fs.key);
    DenoteRender(norm, fs.value);
    PutLast(acc, fs.key, fs.value);
    if fs.rest.Field? {
      BelowNext(acc, fs.key, fs.value, fs.rest.key);
      DenoteRenderFields(norm, fs.rest, Append(acc, Field(fs.key, fs.value, NoFields)));
      AppendField(acc, fs.key, fs.value, fs.rest);
    }
  }
}
