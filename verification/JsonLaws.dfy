/** The promises of canonicalJSON: the bytes depend on the JSON value alone and determine it. */
module JsonLaws {
  import opened Bytes
  import opened JsonString
  import opened JsonText
  import opened JsonCanon

  // ---- trimming a document ----

  lemma {:induction false} TextThenAppend(d: Doc, u: Bytes, t: Bytes)
    ensures TextThen(d, u + t) == TextThen(d, u) + t
    decreases d, 0
  {
    match d
    case DNull => assert NULL_TEXT + (u + t) == (NULL_TEXT + u) + t;
    case DTrue => assert TRUE_TEXT + (u + t) == (TRUE_TEXT + u) + t;
    case DFalse => assert FALSE_TEXT + (u + t) == (FALSE_TEXT + u) + t;
    case DNumber(token) => assert token + (u + t) == (token + u) + t;
    case DString(body) => StringThenAppend(body, u, t);
    case DEmptyArray(pad) =>
      assert [OPEN_ARRAY] + (pad + ([CLOSE_ARRAY] + (u + t))) == ([OPEN_ARRAY] + (pad + ([CLOSE_ARRAY] + u))) + t;
    case DArray(elems) =>
      ElemsThenAppend(elems, u, t);
      assert [OPEN_ARRAY] + (ElemsThen(elems, u) + t) == ([OPEN_ARRAY] + ElemsThen(elems, u)) + t;
    case DEmptyObject(pad) =>
      assert [OPEN_OBJECT] + (pad + ([CLOSE_OBJECT] + (u + t))) == ([OPEN_OBJECT] + (pad + ([CLOSE_OBJECT] + u))) + t;
    case DObject(members) =>
      MembersThenAppend(members, u, t);
      assert [OPEN_OBJECT] + (MembersThen(members, u) + t) == ([OPEN_OBJECT] + MembersThen(members, u)) + t;
  }

  lemma StringThenAppend(body: Bytes, u: Bytes, t: Bytes)
    ensures StringThen(body, u + t) == StringThen(body, u) + t
  {
    assert [QUOTE] + (body + ([QUOTE] + (u + t))) == ([QUOTE] + (body + ([QUOTE] + u))) + t;
  }

  lemma {:induction false} SlotThenAppend(slot: Slot, b: Byte, u: Bytes, t: Bytes)
    ensures SlotThen(slot, [b] + (u + t)) == SlotThen(slot, [b] + u) + t
    decreases slot, 1
  {
    var v := slot.after + ([b] + u);
    assert slot.after + ([b] + (u + t)) == v + t;
    TextThenAppend(slot.doc, v, t);
    assert slot.before + (TextThen(slot.doc, v) + t) == (slot.before + TextThen(slot.doc, v)) + t;
  }

  lemma {:induction false} ElemsThenAppend(es: Elems, u: Bytes, t: Bytes)
    ensures ElemsThen(es, u + t) == ElemsThen(es, u) + t
    decreases es, 2
  {
    if es.LastElem? {
      SlotThenAppend(es.slot, CLOSE_ARRAY, u, t);
    } else {
      ElemsThenAppend(es.tail, u, t);
      SlotThenAppend(es.slot, COMMA, ElemsThen(es.tail, u), t);
    }
  }

  lemma KeyThenAppend(e: Entry, u: Bytes, t: Bytes)
    ensures KeyThen(e, u + t) == KeyThen(e, u) + t
  {
    var v := e.after + ([COLON] + u);
    assert e.after + ([COLON] + (u + t)) == v + t;
    StringThenAppend(e.key, v, t);
    assert e.before + (StringThen(e.key, v) + t) == (e.before + StringThen(e.key, v)) + t;
  }

  lemma {:induction false} MembersThenAppend(ms: Members, u: Bytes, t: Bytes)
    ensures MembersThen(ms, u + t) == MembersThen(ms, u) + t
    decreases ms, 2
  {
    if ms.LastMember? {
      SlotThenAppend(ms.slot, CLOSE_OBJECT, u, t);
    } else {
      MembersThenAppend(ms.tail, u, t);
      SlotThenAppend(ms.slot, COMMA, MembersThen(ms.tail, u), t);
    }
    KeyThenAppend(ms.entry, BindingThen(ms, u), t);
  }

  /** A text that a trim leaves alone. */
  predicate Trimmed(s: Bytes) {
    s != [] && !Blank(s[0]) && !Blank(s[|s| - 1])
  }

  lemma BlankSpaces(s: Bytes)
    requires Spaces(s)
    ensures forall b | b in s :: Blank(b)
  {
  }

  lemma {:induction false} ElemsEnd(es: Elems)
    ensures var s := ElemsThen(es, []); s != [] && s[|s| - 1] == CLOSE_ARRAY
  {
    if es.LastElem? {
      SlotEnd(es.slot, CLOSE_ARRAY);
    } else {
      ElemsEnd(es.tail);
      var u := ElemsThen(es.tail, []);
      SlotThenAppend(es.slot, COMMA, u[..|u| - 1], [CLOSE_ARRAY]);
      assert u == u[..|u| - 1] + [CLOSE_ARRAY];
    }
  }

  lemma {:induction false} MembersEnd(ms: Members)
    ensures var s := MembersThen(ms, []); s != [] && s[|s| - 1] == CLOSE_OBJECT
  {
    if ms.LastMember? {
      SlotEnd(ms.slot, CLOSE_OBJECT);
    } else {
      MembersEnd(ms.tail);
      var u := MembersThen(ms.tail, []);
      SlotThenAppend(ms.slot, COMMA, u[..|u| - 1], [CLOSE_OBJECT]);
      assert u == u[..|u| - 1] + [CLOSE_OBJECT];
    }
    var v := BindingThen(ms, []);
    assert v == v[..|v| - 1] + [CLOSE_OBJECT];
    KeyThenAppend(ms.entry, v[..|v| - 1], [CLOSE_OBJECT]);
  }

  lemma SlotEnd(slot: Slot, b: Byte)
    ensures var s := SlotThen(slot, [b] + []); s != [] && s[|s| - 1] == b
  {
    TextThenAppend(slot.doc, slot.after, [b]);
    assert [b] + [] == [b];
  }

  lemma TextTrimmed(d: Doc)
    requires WellFormed(d)
    ensures Trimmed(Text(d))
  {
    match d
    case DNumber(token) =>
      NumberBytes(Start, token);
      NumberOpens(token);
      assert Text(d) == token && token[|token| - 1] in token;
    case DArray(elems) => ElemsEnd(elems);
    case DObject(members) => MembersEnd(members);
    case _ =>
  }

  lemma {:induction false} TrimLeftPad(pre: Bytes, s: Bytes)
    requires (forall b | b in pre :: Blank(b)) && s != [] && !Blank(s[0])
    ensures TrimLeft(pre + s) == s
  {
    if pre == [] {
      assert pre + s == s;
    } else {
      assert (pre + s)[1..] == pre[1..] + s;
      TrimLeftPad(pre[1..], s);
    }
  }

  lemma {:induction false} TrimRightPad(s: Bytes, post: Bytes)
    requires (forall b | b in post :: Blank(b)) && s != [] && !Blank(s[|s| - 1])
    ensures TrimRight(s + post) == s
  {
    if post == [] {
      assert s + post == s;
    } else {
      var n := |post| - 1;
      assert (s + post)[..|s + post| - 1] == s + post[..n];
      assert post[n] in post && (s + post)[|s + post| - 1] == post[n];
      TrimRightPad(s, post[..n]);
    }
  }

  lemma TrimPadded(pre: Bytes, s: Bytes, post: Bytes)
    requires Spaces(pre) && Spaces(post) && Trimmed(s)
    ensures TrimSpace(pre + s + post) == s
  {
    BlankSpaces(pre);
    BlankSpaces(post);
    assert pre + s + post == pre + (s + post);
    TrimLeftPad(pre, s + post);
    TrimRightPad(s, post);
  }

  // ---- the canonical form is a function of the value ----

  /** Empty and null coincide. */
  lemma CanonicalNull(norm: FloatText)
    ensures CanonicalJson(norm, []) == CanonicalJson(norm, NULL_TEXT) == Some(NULL_TEXT) == Some(Print(Null))
  {
    TrimPadded([], NULL_TEXT, []);
    assert [] + NULL_TEXT + [] == NULL_TEXT;
    assert Print(Null) == NULL_TEXT + [] == NULL_TEXT;
  }

  /** However a document is spaced, its canonical form is the printing of the value it denotes. */
  lemma CanonicalText(norm: FloatText, pre: Bytes, d: Doc, post: Bytes)
    requires Spaces(pre) && Spaces(post) && WellFormed(d) && NumbersFit(norm, d)
    ensures CanonicalJson(norm, pre + Text(d) + post) == Some(Print(Denote(norm, d)))
  {
    TextTrimmed(d);
    TrimPadded(pre, Text(d), post);
    ParseText(d, []);
    if Text(d) == NULL_TEXT {
      ParseText(DNull, []);
      assert NULL_TEXT + [] == NULL_TEXT;
    }
  }

  /** A printed normal value is its own canonical form, and decodes to that value. */
  lemma CanonicalPrint(norm: FloatText, v: Json)
    requires Normal(norm, v)
    ensures CanonicalJson(norm, Print(v)) == Some(Print(v))
    ensures ParseDoc(Print(v)) == Some(Parsed(Render(v), []))
    ensures WellFormed(Render(v)) && NumbersFit(norm, Render(v)) && Denote(norm, Render(v)) == v
  {
    DenoteRender(norm, v);
    CanonicalText(norm, [], Render(v), []);
    assert [] + Print(v) + [] == Print(v);
    ParseText(Render(v), []);
  }

  /** The value an accepted text denotes. */
  function Meaning(norm: FloatText, raw: Bytes): (v: Json)
    requires CanonicalJson(norm, raw).Some?
  {
    var trimmed := TrimSpace(raw);
    if trimmed == [] || trimmed == NULL_TEXT then Null
    else
      ParseSound(trimmed);
      Denote(norm, ParseDoc(trimmed).value.value)
  }

  lemma MeaningPrinted(norm: FloatText, raw: Bytes)
    requires CanonicalJson(norm, raw).Some?
    ensures Normal(norm, Meaning(norm, raw))
    ensures CanonicalJson(norm, raw) == Some(Print(Meaning(norm, raw)))
  {
    var trimmed := TrimSpace(raw);
    CanonicalNull(norm);
    if trimmed != [] && trimmed != NULL_TEXT {
      ParseSound(trimmed);
      DenoteNormal(norm, ParseDoc(trimmed).value.value);
    }
  }

  lemma PrintInjective(norm: FloatText, v: Json, w: Json)
    requires Normal(norm, v) && Normal(norm, w) && Print(v) == Print(w)
    ensures v == w
  {
    CanonicalPrint(norm, v);
    CanonicalPrint(norm, w);
  }

  /** Two accepted texts have the same canonical bytes exactly when they mean the same value. */
  lemma CanonicalIffMeaning(norm: FloatText, a: Bytes, b: Bytes)
    requires CanonicalJson(norm, a).Some? && CanonicalJson(norm, b).Some?
    ensures CanonicalJson(norm, a) == CanonicalJson(norm, b) <==> Meaning(norm, a) == Meaning(norm, b)
  {
    MeaningPrinted(norm, a);
    MeaningPrinted(norm, b);
    if CanonicalJson(norm, a) == CanonicalJson(norm, b) {
      PrintInjective(norm, Meaning(norm, a), Meaning(norm, b));
    }
  }

  /** Canonicalising a canonical form changes nothing. */
  lemma CanonicalIdempotent(norm: FloatText, raw: Bytes)
    requires CanonicalJson(norm, raw).Some?
    ensures CanonicalJson(norm, CanonicalJson(norm, raw).value) == CanonicalJson(norm, raw)
    ensures Meaning(norm, CanonicalJson(norm, raw).value) == Meaning(norm, raw)
  {
    MeaningPrinted(norm, raw);
    CanonicalPrint(norm, Meaning(norm, raw));
    CanonicalIffMeaning(norm, raw, CanonicalJson(norm, raw).value);
  }

  // ---- member order ----

  /** The value a member list binds to key: the last one wins. */
  function LastBinding(norm: FloatText, ms: Members, key: Bytes): Option<Json>
    requires MembersWellFormed(ms) && MembersFit(norm, ms)
  {
    var later := if ms.MoreMembers? then LastBinding(norm, ms.tail, key) else None;
    assert SlotWellFormed(ms.slot);
    if later.Some? then later
    else if Unquote(ms.entry.key).value == key then Some(Denote(norm, ms.slot.doc))
    else None
  }

  lemma {:induction false} LookupPut(key: Bytes, value: Json, fs: Fields, k: Bytes)
    ensures Lookup(k, Put(key, value, fs)) == if k == key then Some(value) else Lookup(k, fs)
  {
    if fs.Field? {
      LookupPut(key, value, fs.rest, k);
    }
  }

  lemma {:induction false} LookupMembers(norm: FloatText, ms: Members, acc: Fields, k: Bytes)
    requires MembersWellFormed(ms) && MembersFit(norm, ms)
    ensures Lookup(k, DenoteMembers(norm, ms, acc)) ==
            if LastBinding(norm, ms, k).Some? then LastBinding(norm, ms, k) else Lookup(k, acc)
    decreases ms
  {
    assert SlotWellFormed(ms.slot);
    var key, value := Unquote(ms.entry.key).value, Denote(norm, ms.slot.doc);
    LookupPut(key, value, acc, k);
    if ms.MoreMembers? {
      LookupMembers(norm, ms.tail, Put(key, value, acc), k);
    }
  }

  lemma {:induction false} LookupAbove(norm: FloatText, key: Bytes, fs: Fields)
    requires FieldsNormal(norm, fs) && Above(key, fs)
    ensures Lookup(key, fs) == None
  {
    if fs.Field? {
      LessTrichotomy(key, fs.key);
      if fs.rest.Field? {
        LessTransitive(key, fs.key, fs.rest.key);
      }
      LookupAbove(norm, key, fs.rest);
    }
  }

  lemma {:induction false} FieldsExtensional(norm: FloatText, a: Fields, b: Fields)
    requires FieldsNormal(norm, a) && FieldsNormal(norm, b)
    requires forall k :: Lookup(k, a) == Lookup(k, b)
    ensures a == b
  {
    assert a.Field? ==> Lookup(a.key, a) == Lookup(a.key, b);
    assert b.Field? ==> Lookup(b.key, a) == Lookup(b.key, b);
    if a.Field? && b.Field? {
      assert Lookup(a.key, a) == Lookup(a.key, b) && Lookup(b.key, a) == Lookup(b.key, b);
      LessTrichotomy(a.key, b.key);
      if Less(a.key, b.key) {
        LookupAbove(norm, a.key, b);
        assert false;
      } else if Less(b.key, a.key) {
        LookupAbove(norm, b.key, a);
        assert false;
      }
      LookupAbove(norm, a.key, a.rest);
      LookupAbove(norm, b.key, b.rest);
      forall k
        ensures Lookup(k, a.rest) == Lookup(k, b.rest)
      {
        assert Lookup(k, a) == Lookup(k, b);
      }
      FieldsExtensional(norm, a.rest, b.rest);
    }
  }

  ghost predicate SameBindings(norm: FloatText, a: Members, b: Members)
    requires MembersWellFormed(a) && MembersFit(norm, a) && MembersWellFormed(b) && MembersFit(norm, b)
  {
    forall k :: LastBinding(norm, a, k) == LastBinding(norm, b, k)
  }

  lemma FieldsOfBindings(norm: FloatText, a: Members, b: Members)
    requires MembersWellFormed(a) && MembersFit(norm, a) && MembersWellFormed(b) && MembersFit(norm, b)
    ensures SameBindings(norm, a, b) <==> DenoteMembers(norm, a, NoFields) == DenoteMembers(norm, b, NoFields)
  {
    var da, db := DenoteMembers(norm, a, NoFields), DenoteMembers(norm, b, NoFields);
    forall k
      ensures LastBinding(norm, a, k) == Lookup(k, da) && LastBinding(norm, b, k) == Lookup(k, db)
    {
      LookupMembers(norm, a, NoFields, k);
      LookupMembers(norm, b, NoFields, k);
    }
    if SameBindings(norm, a, b) {
      DenoteMembersNormal(norm, a, NoFields);
      DenoteMembersNormal(norm, b, NoFields);
      FieldsExtensional(norm, da, db);
    }
  }

  /** Objects denote the same value exactly when they bind the same keys to the same values: the order
      of members, and members overridden by a later duplicate, do not matter at any depth. */
  lemma MemberOrderIrrelevant(norm: FloatText, a: Members, b: Members)
    requires MembersWellFormed(a) && MembersFit(norm, a) && MembersWellFormed(b) && MembersFit(norm, b)
    ensures SameBindings(norm, a, b) <==> Denote(norm, DObject(a)) == Denote(norm, DObject(b))
  {
    FieldsOfBindings(norm, a, b);
  }

  // ---- what is printed ----

  /** No control byte, and none that means anything to an HTML reader. */
  predicate Clean(s: Bytes) {
    NoControl(s) && HtmlSafe(s)
  }

  lemma {:induction false} RenderClean(norm: FloatText, v: Json, t: Bytes)
    requires Normal(norm, v) && Clean(t)
    ensures Clean(TextThen(Render(v), t))
    ensures Clean(SlotThen(Slot([], Render(v), []), t))
    decreases v, 0
  {
    match v {
      case Number(token) => NumberBytes(Start, token);
      case String(text) => EscapeNoControl(text);
      case Array(items) =>
        if items.Item? { RenderItemsClean(norm, items, t); }
      case Object(fields) =>
        if fields.Field? { RenderFieldsClean(norm, fields, t); }
      case _ =>
    }
    EmptySlot(Render(v), t);
  }

  lemma EmptySlot(d: Doc, t: Bytes)
    ensures SlotThen(Slot([], d, []), t) == TextThen(d, t)
  {
    assert [] + t == t;
  }

  lemma {:induction false} RenderItemsClean(norm: FloatText, items: Items, t: Bytes)
    requires items.Item? && ItemsNormal(norm, items) && Clean(t)
    ensures Clean(ElemsThen(RenderItems(items), t))
    decreases items, 1
  {
    if items.tail.NoItems? {
      RenderClean(norm, items.head, [CLOSE_ARRAY] + t);
    } else {
      RenderItemsClean(norm, items.tail, t);
      RenderClean(norm, items.head, [COMMA] + ElemsThen(RenderItems(items.tail), t));
    }
  }

  lemma KeyClean(key: Bytes, t: Bytes)
    requires Clean(t)
    ensures Clean(KeyThen(Entry([], Escape(key), []), t))
  {
    EscapeNoControl(key);
  }

  lemma {:induction false} RenderFieldsClean(norm: FloatText, fs: Fields, t: Bytes)
    requires fs.Field? && FieldsNormal(norm, fs) && Clean(t)
    ensures Clean(MembersThen(RenderFields(fs), t))
    decreases fs, 1
  {
    if fs.rest.NoFields? {
      RenderClean(norm, fs.value, [CLOSE_OBJECT] + t);
    } else {
      RenderFieldsClean(norm, fs.rest, t);
      RenderClean(norm, fs.value, [COMMA] + MembersThen(RenderFields(fs.rest), t));
    }
    KeyClean(fs.key, BindingThen(RenderFields(fs), t));
  }

  /** The unit separator that joins the hashed fields never occurs in a canonical document. */
  lemma CanonicalNoControl(norm: FloatText, raw: Bytes)
    requires CanonicalJson(norm, raw).Some?
    ensures Clean(CanonicalJson(norm, raw).value)
  {
    MeaningPrinted(norm, raw);
    RenderClean(norm, Meaning(norm, raw), []);
  }

  /** No space between tokens, and the keys of every object increase, so none is bound twice. */
  predicate Tidy(d: Doc) {
    match d
    case DEmptyArray(pad) => pad == []
    case DArray(elems) => ElemsTidy(elems)
    case DEmptyObject(pad) => pad == []
    case DObject(members) => MembersTidy(members)
    case _ => true
  }

  predicate ElemsTidy(es: Elems) {
    && es.slot.before == [] && es.slot.after == [] && Tidy(es.slot.doc)
    && (es.MoreElems? ==> ElemsTidy(es.tail))
  }

  predicate MembersTidy(ms: Members) {
    && ms.entry.before == [] && ms.entry.after == []
    && ms.slot.before == [] && ms.slot.after == [] && Tidy(ms.slot.doc)
    && (ms.MoreMembers? ==> KeyRises(ms.entry.key, ms.tail.entry.key) && MembersTidy(ms.tail))
  }

  predicate KeyRises(a: Bytes, b: Bytes) {
    Unquote(a).Some? && Unquote(b).Some? && Less(Unquote(a).value, Unquote(b).value)
  }

  lemma {:induction false} RenderTidy(norm: FloatText, v: Json)
    requires Normal(norm, v)
    ensures Tidy(Render(v))
    decreases v
  {
    match v
    case Array(items) => if items.Item? { RenderItemsTidy(norm, items); }
    case Object(fields) => if fields.Field? { RenderFieldsTidy(norm, fields); }
    case _ =>
  }

  lemma {:induction false} RenderItemsTidy(norm: FloatText, items: Items)
    requires items.Item? && ItemsNormal(norm, items)
    ensures ElemsTidy(RenderItems(items))
    decreases items
  {
    RenderTidy(norm, items.head);
    if items.tail.Item? {
      RenderItemsTidy(norm, items.tail);
    }
  }

  lemma {:induction false} RenderFieldsTidy(norm: FloatText, fs: Fields)
    requires fs.Field? && FieldsNormal(norm, fs)
    ensures MembersTidy(RenderFields(fs))
    decreases fs
  {
    RenderTidy(norm, fs.value);
    if fs.rest.Field? {
      RenderFieldsTidy(norm, fs.rest);
      StringRoundTrip(fs.key);
      StringRoundTrip(fs.rest.key);
    }
  }

  /** Whatever the input looked like, what is hashed is the text of one document of the same meaning, with no space
      between its tokens and with its keys in increasing order. */
  lemma CanonicalTidy(norm: FloatText, raw: Bytes)
    requires CanonicalJson(norm, raw).Some?
    ensures exists d :: WellFormed(d) && Tidy(d) && Text(d) == CanonicalJson(norm, raw).value
                        && NumbersFit(norm, d) && Denote(norm, d) == Meaning(norm, raw)
  {
    MeaningPrinted(norm, raw);
    var v := Meaning(norm, raw);
    RenderTidy(norm, v);
    DenoteRender(norm, v);
  }
}
