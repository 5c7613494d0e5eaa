/** What an appended row says of the request it came from. */
module AuditRequest {
  import opened Bytes
  import Utf8
  import opened CivilTime
  import JsonText
  import opened JsonCanon
  import opened JsonLaws
  import opened AuditCore
  import opened AuditLog

  // ---- trimming ----

  /** White space as strings.TrimSpace knows it, in ASCII. */
  predicate WhiteSpace(b: Byte) {
    b in {0x09, 0x0A, 0x0B, 0x0C, 0x0D, 0x20}
  }

  predicate AllWhite(s: Bytes) {
    forall b | b in s :: WhiteSpace(b)
  }

  /** r is s without the white space at its ends. */
  ghost predicate TrimmedTo(s: Bytes, r: Bytes) {
    && (exists pre, post :: s == pre + r + post && AllWhite(pre) && AllWhite(post))
    && (r != [] ==> !WhiteSpace(r[0]) && !WhiteSpace(r[|r| - 1]))
  }

  lemma {:induction false} LeftTrim(s: Bytes) returns (pre: Bytes)
    ensures s == pre + TrimLeft(s) && AllWhite(pre)
    ensures TrimLeft(s) != [] ==> !WhiteSpace(TrimLeft(s)[0])
  {
    if s != [] && Blank(s[0]) {
      var rest := LeftTrim(s[1..]);
      pre := [s[0]] + rest;
      FirstMoved(s, rest, TrimLeft(s[1..]));
    } else {
      pre := [];
    }
  }

  lemma FirstMoved(s: Bytes, rest: Bytes, r: Bytes)
    requires s != [] && s[1..] == rest + r && AllWhite(rest) && WhiteSpace(s[0])
    ensures s == ([s[0]] + rest) + r && AllWhite([s[0]] + rest)
  {
    assert s == [s[0]] + s[1..];
  }

  lemma {:induction false} RightTrim(s: Bytes) returns (post: Bytes)
    ensures s == TrimRight(s) + post && AllWhite(post)
    ensures TrimRight(s) != [] ==> !WhiteSpace(TrimRight(s)[|TrimRight(s)| - 1])
    decreases |s|
  {
    if s != [] && Blank(s[|s| - 1]) {
      var rest := RightTrim(s[..|s| - 1]);
      post := rest + [s[|s| - 1]];
      LastMoved(s, TrimRight(s[..|s| - 1]), rest);
    } else {
      post := [];
    }
  }

  lemma LastMoved(s: Bytes, r: Bytes, rest: Bytes)
    requires s != [] && s[..|s| - 1] == r + rest && AllWhite(rest) && WhiteSpace(s[|s| - 1])
    ensures s == r + (rest + [s[|s| - 1]]) && AllWhite(rest + [s[|s| - 1]])
  {
    assert s == s[..|s| - 1] + [s[|s| - 1]];
  }

  lemma TrimSpaceTrims(s: Bytes)
    ensures TrimmedTo(s, TrimSpace(s))
    ensures TrimSpace(s) == [] <==> AllWhite(s)
  {
    var pre := LeftTrim(s);
    var post := RightTrim(TrimLeft(s));
    assert s == pre + TrimSpace(s) + post;
    if TrimSpace(s) != [] {
      assert TrimSpace(s)[0] == TrimLeft(s)[0];
      assert TrimSpace(s)[0] in s;
    }
  }

  // ---- the content asked for ----

  /** A UUID argument, in the form the database gives back. */
  function Reference(env: Env, s: Option<Bytes>): Option<Bytes> {
    if s.Some? && env.uuid(s.value).Some? then Some(Utf8.Sanitise(env.uuid(s.value).value)) else None
  }

  /** A document argument as a value; a blank one is null. */
  function Document(env: Env, raw: Bytes): JsonText.Json {
    if AllWhite(raw) || CanonicalJson(env.norm, raw).None? then JsonText.Null else Meaning(env.norm, raw)
  }

  /** What the request says, under the id the row is given. */
  function Requested(env: Env, row: InsertRow, now: Time, id: int): Content
    requires env.uuid(row.teamId).Some?
  {
    Content(
      id := id,
      teamId := Utf8.Sanitise(env.uuid(row.teamId).value),
      actorUserId := Reference(env, row.actorUserId),
      source := Utf8.Sanitise(row.source),
      subjectType := Utf8.Sanitise(row.subjectType),
      subjectId := Reference(env, row.subjectId),
      action := Utf8.Sanitise(row.action),
      args := Some(Document(env, row.args)),
      result := Some(Document(env, row.result)),
      previewId := Reference(env, row.previewId),
      traceId := Utf8.Sanitise(TrimSpace(row.traceId)),
      outcome := Utf8.Sanitise(row.outcome),
      httpStatus := row.httpStatus,
      createdAt := [now.year, now.month, now.day, now.hour, now.minute, now.second, now.nano / 1000 * 1000])
  }

  /** The stored columns, the documents in jsonb's spelling. */
  predicate StoredColumns(env: Env, row: InsertRow, now: Time, id: int, core: Core) {
    && core.id == id
    && Some(core.teamId) == env.uuid(row.teamId)
    && core.actorUserId == (if row.actorUserId.Some? then env.uuid(row.actorUserId.value) else None)
    && core.source == row.source && core.subjectType == row.subjectType
    && core.subjectId == (if row.subjectId.Some? then env.uuid(row.subjectId.value) else None)
    && core.action == row.action
    && Some(core.args) == env.jsonb(if AllWhite(row.args) then Ascii("null") else row.args)
    && Some(core.result) == env.jsonb(if AllWhite(row.result) then Ascii("null") else row.result)
    && core.previewId == (if row.previewId.Some? then env.uuid(row.previewId.value) else None)
    && core.traceId == TrimSpace(row.traceId) && core.outcome == row.outcome && core.httpStatus == row.httpStatus
    && core.createdAt == now.(nano := now.nano / 1000 * 1000)
  }

  lemma NullText()
    ensures NULL_TEXT == Ascii("null")
  {
  }

  lemma DocumentRead(env: Env, raw: Bytes)
    requires CanonicalJson(env.norm, JsonOrNull(raw)).Some?
    ensures ReadJson(env.norm, JsonOrNull(raw)) == Some(Document(env, raw))
  {
    TrimSpaceTrims(raw);
    if AllWhite(raw) {
      TrimPadded([], NULL_TEXT, []);
      assert [] + NULL_TEXT + [] == NULL_TEXT;
    }
  }

  lemma MicroFields(now: Time)
    ensures FieldsOf(TruncateMicro(now))
            == [now.year, now.month, now.day, now.hour, now.minute, now.second, now.nano / 1000 * 1000]
  {
  }

  lemma ReferenceRead(env: Env, s: Option<Bytes>)
    requires OptionalParses(env, s)
    ensures SanitiseNullable(OptionalUuid(env, s)) == Reference(env, s)
  {
  }

  lemma ContentIs(norm: FloatText, c: Core, args: JsonText.Json, result: JsonText.Json, createdAt: seq<int>)
    requires ReadJson(norm, c.args) == Some(args) && ReadJson(norm, c.result) == Some(result)
    requires FieldsOf(TruncateMicro(c.createdAt)) == createdAt
    ensures ContentOf(norm, c)
            == Content(c.id, Utf8.Sanitise(c.teamId), SanitiseNullable(c.actorUserId), Utf8.Sanitise(c.source),
                       Utf8.Sanitise(c.subjectType), SanitiseNullable(c.subjectId), Utf8.Sanitise(c.action),
                       Some(args), Some(result), SanitiseNullable(c.previewId), Utf8.Sanitise(c.traceId),
                       Utf8.Sanitise(c.outcome), c.httpStatus, createdAt)
  {
  }

  lemma StampDocuments(env: Env, row: InsertRow, now: Time, id: int)
    requires Parses(env, row)
    requires CanonicalCore(env.norm, Stamp(env, row, now).(id := id)).Some?
    ensures ReadJson(env.norm, JsonOrNull(row.args)) == Some(Document(env, row.args))
    ensures ReadJson(env.norm, JsonOrNull(row.result)) == Some(Document(env, row.result))
  {
    DocumentRead(env, row.args);
    DocumentRead(env, row.result);
  }

  lemma StampContent(env: Env, row: InsertRow, now: Time, id: int)
    requires Parses(env, row)
    requires ReadJson(env.norm, JsonOrNull(row.args)) == Some(Document(env, row.args))
    requires ReadJson(env.norm, JsonOrNull(row.result)) == Some(Document(env, row.result))
    ensures ContentOf(env.norm, Stamp(env, row, now).(id := id)) == Requested(env, row, now, id)
  {
    var k := Requested(env, row, now, id);
    MicroFields(now);
    MicroKept(TruncateMicro(now));
    ReferenceRead(env, row.actorUserId);
    ReferenceRead(env, row.subjectId);
    ReferenceRead(env, row.previewId);
    ContentIs(env.norm, Stamp(env, row, now).(id := id), k.args.value, k.result.value, k.createdAt);
  }

  /** The bytes hashed for a request read back as what it said. */
  lemma HashedRequest(env: Env, row: InsertRow, now: Time, id: int)
    requires Parses(env, row)
    requires CanonicalCore(env.norm, Stamp(env, row, now).(id := id)).Some?
    ensures ReadCore(env.norm, CanonicalCore(env.norm, Stamp(env, row, now).(id := id)).value)
            == Some(Requested(env, row, now, id))
  {
    CoreRoundTrip(env.norm, Stamp(env, row, now).(id := id));
    StampDocuments(env, row, now, id);
    StampContent(env, row, now, id);
  }

  lemma StampColumns(env: Env, row: InsertRow, now: Time, id: int)
    requires Parses(env, row) && Storable(env, Stamp(env, row, now).(id := id))
    ensures StoredColumns(env, row, now, id, Stored(env, Stamp(env, row, now).(id := id)))
  {
    TrimSpaceTrims(row.args);
    TrimSpaceTrims(row.result);
    NullText();
  }

  lemma MicroKept(t: Time)
    requires t.nano % 1000 == 0
    ensures TruncateMicro(t) == t
  {
  }

  /** An entry of the log records a request: its hashed bytes read back as what the request said, and its columns hold
      it. */
  ghost predicate Records(env: Env, row: InsertRow, now: Time, id: int, e: Entry) {
    && env.uuid(row.teamId).Some?
    && ReadCore(env.norm, e.hashed) == Some(Requested(env, row, now, id))
    && StoredColumns(env, row, now, id, e.row.core)
  }

  lemma EntryRecords(env: Env, row: InsertRow, now: Time, id: int, head: Head)
    requires Parses(env, row) && Storable(env, Stamp(env, row, now).(id := id))
    ensures Records(env, row, now, id, MakeEntry(env, Stamp(env, row, now).(id := id), head))
  {
    HashedRequest(env, row, now, id);
    StampColumns(env, row, now, id);
  }

  // ---- in every run ----

  /** The request a core was stamped for began in the run; its id may have been set since. */
  ghost predicate Origin(env: Env, steps: seq<Step>, c: Core) {
    exists t, row, now ::
      Begin(t, row, now) in steps && Parses(env, row) && c == Stamp(env, row, now).(id := c.id)
  }

  ghost predicate EntryOrigin(env: Env, steps: seq<Step>, e: Entry) {
    exists t, row, now :: Begin(t, row, now) in steps && Records(env, row, now, e.row.core.id, e)
  }

  ghost predicate TxOrigin(env: Env, steps: seq<Step>, tx: Tx) {
    if tx.Written? then EntryOrigin(env, steps, tx.entry) else Origin(env, steps, tx.core)
  }

  ghost predicate Traced(env: Env, steps: seq<Step>, db: Db) {
    && (forall t | t in db.txs :: TxOrigin(env, steps, db.txs[t]))
    && (forall e | e in db.log && e.row.rowHash != [] :: EntryOrigin(env, steps, e))
  }

  lemma OriginLater(env: Env, steps: seq<Step>, s: Step)
    ensures forall c | Origin(env, steps, c) :: Origin(env, steps + [s], c)
    ensures forall e | EntryOrigin(env, steps, e) :: EntryOrigin(env, steps + [s], e)
  {
    forall c | Origin(env, steps, c)
      ensures Origin(env, steps + [s], c)
    {
      var t, row, now :|
        Begin(t, row, now) in steps && Parses(env, row) && c == Stamp(env, row, now).(id := c.id);
      assert Begin(t, row, now) in steps + [s];
    }
    forall e | EntryOrigin(env, steps, e)
      ensures EntryOrigin(env, steps + [s], e)
    {
      var t, row, now :| Begin(t, row, now) in steps && Records(env, row, now, e.row.core.id, e);
      assert Begin(t, row, now) in steps + [s];
    }
  }

  lemma WriteTraced(env: Env, steps: seq<Step>, c: Core, head: Head)
    requires Origin(env, steps, c) && Storable(env, c)
    ensures EntryOrigin(env, steps, MakeEntry(env, c, head))
  {
    var t, row, now :|
      Begin(t, row, now) in steps && Parses(env, row) && c == Stamp(env, row, now).(id := c.id);
    EntryRecords(env, row, now, c.id, head);
  }

  lemma TracedLater(env: Env, steps: seq<Step>, db: Db, s: Step)
    requires Traced(env, steps, db)
    ensures Traced(env, steps + [s], db)
  {
    OriginLater(env, steps, s);
    forall t | t in db.txs
      ensures TxOrigin(env, steps + [s], db.txs[t])
    {
      assert TxOrigin(env, steps, db.txs[t]);
    }
  }

  /** One transaction put in place of another, or of none. */
  lemma TracedTx(env: Env, steps: seq<Step>, db: Db, db': Db, t: TxId, tx: Tx)
    requires Traced(env, steps, db) && TxOrigin(env, steps, tx)
    requires db'.log == db.log && db'.txs == db.txs[t := tx]
    ensures Traced(env, steps, db')
  {
  }

  lemma TracedCommit(env: Env, steps: seq<Step>, db: Db, t: TxId)
    requires Traced(env, steps, db) && t in db.txs && db.txs[t].Written?
    ensures Traced(env, steps, Committed(db, t))
  {
    assert TxOrigin(env, steps, db.txs[t]);
  }

  lemma TracedUnhashed(env: Env, steps: seq<Step>, db: Db, core: Core)
    requires Traced(env, steps, db)
    ensures Traced(env, steps, Unhashed(db, core))
  {
  }

  lemma TracedAbort(env: Env, steps: seq<Step>, db: Db, t: TxId)
    requires Traced(env, steps, db)
    ensures Traced(env, steps, db.(txs := db.txs - {t}))
  {
  }

  lemma BeginTraced(env: Env, steps: seq<Step>, db: Db, t: TxId, row: InsertRow, now: Time)
    requires Traced(env, steps, db) && Begin(t, row, now) in steps && Parses(env, row)
    ensures Traced(env, steps, db.(txs := db.txs[t := Stamped(Stamp(env, row, now))]))
  {
    var c := Stamp(env, row, now);
    assert c == c.(id := c.id);
    assert Origin(env, steps, c);
    TracedTx(env, steps, db, db.(txs := db.txs[t := Stamped(c)]), t, Stamped(c));
  }

  lemma NumberTraced(env: Env, steps: seq<Step>, c: Core, id: int)
    requires Origin(env, steps, c)
    ensures Origin(env, steps, c.(id := id))
  {
    var t, row, now :|
      Begin(t, row, now) in steps && Parses(env, row) && c == Stamp(env, row, now).(id := c.id);
    assert c.(id := id) == Stamp(env, row, now).(id := id);
  }

  /** A transaction taken one step further still stands for the request it began with. */
  lemma OwnStepTraced(env: Env, steps: seq<Step>, db: Db, s: Step)
    requires (s.Lock? || s.Allocate? || s.Write?) && Enabled(env, db, s)
    requires TxOrigin(env, steps, db.txs[s.t])
    ensures var db' := Apply(env, db, s);
            && s.t in db'.txs && TxOrigin(env, steps, db'.txs[s.t])
            && db'.log == db.log && db'.txs == db.txs[s.t := db'.txs[s.t]]
  {
    if s.Write? {
      WriteTraced(env, steps, db.txs[s.t].core, db.txs[s.t].head);
    } else {
      NumberTraced(env, steps, db.txs[s.t].core, db.lastId + 1);
    }
  }

  lemma StepTraced(env: Env, steps: seq<Step>, db: Db, s: Step)
    requires Traced(env, steps, db) && Enabled(env, db, s)
    ensures Traced(env, steps + [s], Apply(env, db, s))
  {
    var later := steps + [s];
    TracedLater(env, steps, db, s);
    match s
    case Begin(t, row, now) => BeginTraced(env, later, db, t, row, now);
    case Commit(t) => TracedCommit(env, later, db, t);
    case Abort(t) => TracedAbort(env, later, db, t);
    case InsertUnhashed(core) => TracedUnhashed(env, later, db, core);
    case _ =>
      OwnStepTraced(env, later, db, s);
      TracedTx(env, later, db, Apply(env, db, s), s.t, Apply(env, db, s).txs[s.t]);
  }

  /** In every reachable ledger, each hashed row records a request that some transaction of the run began with. */
  lemma {:induction false} RunTraced(env: Env, steps: seq<Step>)
    requires Run(env, steps).Some?
    ensures Traced(env, steps, Run(env, steps).value)
  {
    if steps == [] {
    } else {
      var n := |steps| - 1;
      RunTraced(env, steps[..n]);
      StepTraced(env, steps[..n], Run(env, steps[..n]).value, steps[n]);
      assert steps == steps[..n] + [steps[n]];
    }
  }
}
