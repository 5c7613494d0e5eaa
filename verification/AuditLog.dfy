/** The append protocol of the audit log: any number of concurrent InsertAuditLog transactions.

    Three facts about the database are built into the steps: a row lock is held to commit or abort, a read
    after locking sees the last commit, and the id sequence only grows and is never rolled back. */
module AuditLog {
  import opened Bytes
  import opened CivilTime
  import JsonText
  import opened JsonCanon
  import JsonLaws
  import opened AuditCore
  import opened HashChain

  /** What the protocol does not compute itself: SHA-256, float64 printing, UUID parsing (giving the
      canonical text), the text jsonb gives back for a document (None when it refuses it), and whether the table
      takes a row (its checks, its foreign keys, and text Postgres can store). */
  datatype Env = Env(
    sha: Hash, norm: FloatText, uuid: Bytes -> Option<Bytes>, jsonb: Bytes -> Option<Bytes>, takes: Core -> bool)

  datatype InsertRow = InsertRow(
    teamId: Bytes,
    actorUserId: Option<Bytes>,
    source: Bytes,
    subjectType: Bytes,
    subjectId: Option<Bytes>,
    action: Bytes,
    args: Bytes,
    result: Bytes,
    previewId: Option<Bytes>,
    traceId: Bytes,
    outcome: Bytes,
    httpStatus: Option<int>
  )

  /** A row of audit_log and the canonical bytes its hash was taken over ([] for a row written unhashed). */
  datatype Entry = Entry(row: VerifyRow, hashed: Bytes)

  datatype ChainKey = ChainKey(teamId: Bytes, month: Month)

  /** A row of audit_chain_head. */
  datatype Head = Head(genesis: Bytes, tip: Bytes, rowCount: nat, firstRowId: Option<int>, lastRowId: Option<int>)

  type TxId = nat

  /** How far a transaction has come. Everything in it is invisible to others until it commits. */
  datatype Tx =
    | Stamped(core: Core)
    | Locked(core: Core, head: Head)
    | Numbered(core: Core, head: Head)
    | Written(entry: Entry, head: Head)

  datatype Db = Db(log: seq<Entry>, heads: map<ChainKey, Head>, lastId: nat, txs: map<TxId, Tx>)

  const EMPTY: Db := Db([], map[], 0, map[])

  function KeyOf(c: Core): ChainKey {
    ChainKey(c.teamId, MonthOf(c.createdAt))
  }

  function CoreOf(tx: Tx): Core {
    if tx.Written? then tx.entry.row.core else tx.core
  }

  predicate Holds(tx: Tx, k: ChainKey) {
    !tx.Stamped? && KeyOf(CoreOf(tx)) == k
  }

  function FreshHead(env: Env, k: ChainKey): Head {
    var genesis := GenesisHash(env.sha, k.teamId, k.month);
    Head(genesis, genesis, 0, None, None)
  }

  /** The committed head, or the one INSERT ... ON CONFLICT DO NOTHING creates. */
  function HeadOf(env: Env, db: Db, k: ChainKey): Head {
    if k in db.heads then db.heads[k] else FreshHead(env, k)
  }

  // ---- what one transaction computes ----

  function JsonOrNull(raw: Bytes): Bytes {
    if TrimSpace(raw) == [] then NULL_TEXT else raw
  }

  predicate OptionalParses(env: Env, s: Option<Bytes>) {
    s.Some? ==> env.uuid(s.value).Some?
  }

  function OptionalUuid(env: Env, s: Option<Bytes>): Option<Bytes> {
    match s
    case None => None
    case Some(t) => env.uuid(t)
  }

  predicate Parses(env: Env, row: InsertRow) {
    && env.uuid(row.teamId).Some?
    && OptionalParses(env, row.actorUserId) && OptionalParses(env, row.subjectId) && OptionalParses(env, row.previewId)
  }

  /** The row as it will be hashed, its id still to be allocated. */
  function Stamp(env: Env, row: InsertRow, now: Time): Core
    requires Parses(env, row)
  {
    Core(0, env.uuid(row.teamId).value, OptionalUuid(env, row.actorUserId), row.source, row.subjectType,
         OptionalUuid(env, row.subjectId), row.action, JsonOrNull(row.args), JsonOrNull(row.result),
         OptionalUuid(env, row.previewId), TrimSpace(row.traceId), row.outcome, row.httpStatus, TruncateMicro(now))
  }

  /** The canonical form exists, and the database accepts both documents and the row. */
  predicate Storable(env: Env, c: Core) {
    CanonicalCore(env.norm, c).Some? && env.jsonb(c.args).Some? && env.jsonb(c.result).Some? && env.takes(c)
  }

  /** The row as stored: jsonb keeps the documents in its own spelling. */
  function Stored(env: Env, c: Core): Core
    requires Storable(env, c)
  {
    c.(args := env.jsonb(c.args).value, result := env.jsonb(c.result).value)
  }

  function MakeEntry(env: Env, c: Core, head: Head): Entry
    requires Storable(env, c)
  {
    var canonical := CanonicalCore(env.norm, c).value;
    Entry(VerifyRow(Stored(env, c), head.tip, RowHash(env.sha, head.tip, canonical)), canonical)
  }

  /** UPDATE audit_chain_head. */
  function Advance(head: Head, row: VerifyRow): Head {
    head.(tip := row.rowHash, rowCount := head.rowCount + 1, lastRowId := Some(row.core.id),
          firstRowId := if head.firstRowId.Some? then head.firstRowId else Some(row.core.id))
  }

  // ---- steps ----

  datatype Step =
    | Begin(t: TxId, row: InsertRow, now: Time)
    | Lock(t: TxId)
    | Allocate(t: TxId)
    | Write(t: TxId)
    | Commit(t: TxId)
    | Abort(t: TxId)
    | InsertUnhashed(core: Core)

  /** No other transaction holds the head row of k. */
  predicate Free(db: Db, k: ChainKey) {
    forall t | t in db.txs :: !Holds(db.txs[t], k)
  }

  predicate Enabled(env: Env, db: Db, s: Step) {
    match s
    case Begin(t, row, _) => t !in db.txs && Parses(env, row)
    case Lock(t) => t in db.txs && db.txs[t].Stamped? && Free(db, KeyOf(db.txs[t].core))
    case Allocate(t) => t in db.txs && db.txs[t].Locked?
    case Write(t) => t in db.txs && db.txs[t].Numbered? && Storable(env, db.txs[t].core)
    case Commit(t) => t in db.txs && db.txs[t].Written?
    case Abort(t) => t in db.txs
    case InsertUnhashed(_) => true
  }

  /** What a commit makes of the database. */
  function Committed(db: Db, t: TxId): Db
    requires t in db.txs && db.txs[t].Written?
  {
    var tx := db.txs[t];
    Db(db.log + [tx.entry], db.heads[KeyOf(tx.entry.row.core) := tx.head], db.lastId, db.txs - {t})
  }

  /** A row written without a hash, outside every chain. */
  function Unhashed(db: Db, core: Core): Db {
    db.(log := db.log + [Entry(VerifyRow(core.(id := db.lastId + 1), [], []), [])], lastId := db.lastId + 1)
  }

  function Apply(env: Env, db: Db, s: Step): Db
    requires Enabled(env, db, s)
  {
    match s
    case Begin(t, row, now) => db.(txs := db.txs[t := Stamped(Stamp(env, row, now))])
    case Lock(t) =>
      var core := db.txs[t].core;
      db.(txs := db.txs[t := Locked(core, HeadOf(env, db, KeyOf(core)))])
    case Allocate(t) =>
      var tx := db.txs[t];
      db.(lastId := db.lastId + 1, txs := db.txs[t := Numbered(tx.core.(id := db.lastId + 1), tx.head)])
    case Write(t) =>
      var tx := db.txs[t];
      var entry := MakeEntry(env, tx.core, tx.head);
      db.(txs := db.txs[t := Written(entry, Advance(tx.head, entry.row))])
    case Commit(t) => Committed(db, t)
    case Abort(t) => db.(txs := db.txs - {t})
    case InsertUnhashed(core) => Unhashed(db, core)
  }

  /** The database after a run of steps from the empty one, if each was possible in its turn. */
  function Run(env: Env, steps: seq<Step>): Option<Db> {
    if steps == [] then Some(EMPTY)
    else
      var n := |steps| - 1;
      match Run(env, steps[..n])
      case None => None
      case Some(db) => if Enabled(env, db, steps[n]) then Some(Apply(env, db, steps[n])) else None
  }

  // ---- the invariant ----

  predicate InChain(e: Entry, k: ChainKey) {
    e.row.rowHash != [] && KeyOf(e.row.core) == k
  }

  /** The hashed rows of one chain, in commit order. */
  function Chain(log: seq<Entry>, k: ChainKey): seq<Entry> {
    if log == [] then []
    else
      var n := |log| - 1;
      Chain(log[..n], k) + (if InChain(log[n], k) then [log[n]] else [])
  }

  function TipOf(genesis: Bytes, es: seq<Entry>): Bytes {
    if es == [] then genesis else es[|es| - 1].row.rowHash
  }

  predicate LinkedEntry(env: Env, prev: Bytes, e: Entry) {
    e.row.prevHash == prev && e.row.rowHash == RowHash(env.sha, prev, e.hashed)
  }

  /** Every row links to the one before it in commit order. */
  ghost predicate LinkedEntries(env: Env, genesis: Bytes, es: seq<Entry>) {
    forall i | 0 <= i < |es| :: LinkedEntry(env, TipOf(genesis, es[..i]), es[i])
  }

  ghost predicate IdsRise(es: seq<Entry>) {
    forall i, j | 0 <= i < j < |es| :: es[i].row.core.id < es[j].row.core.id
  }

  ghost predicate IdsBelow(es: seq<Entry>, bound: int) {
    forall e | e in es :: e.row.core.id < bound
  }

  /** The head anchors exactly the rows es. */
  ghost predicate Anchors(env: Env, k: ChainKey, head: Head, es: seq<Entry>) {
    && head.genesis == GenesisHash(env.sha, k.teamId, k.month)
    && head.tip == TipOf(head.genesis, es)
    && head.rowCount == |es|
    && head.firstRowId == (if es == [] then None else Some(es[0].row.core.id))
    && head.lastRowId == (if es == [] then None else Some(es[|es| - 1].row.core.id))
  }

  /** One (team, month) chain of the committed log. */
  ghost predicate ChainSound(env: Env, db: Db, k: ChainKey) {
    var es := Chain(db.log, k);
    && Anchors(env, k, HeadOf(env, db, k), es)
    && LinkedEntries(env, HeadOf(env, db, k).genesis, es)
    && IdsRise(es)
    && (k in db.heads <==> es != [])
  }

  ghost predicate LogIds(db: Db) {
    && (forall e | e in db.log :: 0 < e.row.core.id <= db.lastId)
    && (forall i, j | 0 <= i < j < |db.log| :: db.log[i].row.core.id != db.log[j].row.core.id)
  }

  predicate HasId(tx: Tx) {
    tx.Numbered? || tx.Written?
  }

  /** What a transaction in flight relies on. */
  ghost predicate TxSound(env: Env, db: Db, tx: Tx) {
    var c := CoreOf(tx);
    var k := KeyOf(c);
    && (tx.Locked? || tx.Numbered? ==> tx.head == HeadOf(env, db, k))
    && (HasId(tx) ==>
          && 0 < c.id <= db.lastId && IdsBelow(Chain(db.log, k), c.id)
          && forall e | e in db.log :: e.row.core.id != c.id)
    && (tx.Written? ==>
          && LinkedEntry(env, HeadOf(env, db, k).tip, tx.entry)
          && tx.head == Advance(HeadOf(env, db, k), tx.entry.row))
  }

  /** Two transactions do not hold one head, nor share an id. */
  predicate Apart(a: Tx, b: Tx) {
    && !(Holds(a, KeyOf(CoreOf(b))) && Holds(b, KeyOf(CoreOf(a))))
    && (HasId(a) && HasId(b) ==> CoreOf(a).id != CoreOf(b).id)
  }

  ghost predicate TxsSound(env: Env, db: Db) {
    && (forall t | t in db.txs :: TxSound(env, db, db.txs[t]))
    && (forall t, u | t in db.txs && u in db.txs && t != u :: Apart(db.txs[t], db.txs[u]))
  }

  ghost predicate Inv(env: Env, db: Db) {
    && (forall k :: ChainSound(env, db, k))
    && LogIds(db)
    && TxsSound(env, db)
  }

  // ---- the invariant is kept by every step ----

  lemma ChainAppend(log: seq<Entry>, e: Entry, k: ChainKey)
    ensures Chain(log + [e], k) == Chain(log, k) + (if InChain(e, k) then [e] else [])
  {
    assert (log + [e])[..|log|] == log;
  }

  lemma {:induction false} ChainMembers(log: seq<Entry>, k: ChainKey)
    ensures forall e :: e in Chain(log, k) <==> e in log && InChain(e, k)
  {
    if log == [] {
    } else {
      ChainMembers(log[..|log| - 1], k);
    }
  }

  lemma LinkedAppend(env: Env, genesis: Bytes, es: seq<Entry>, e: Entry)
    requires LinkedEntries(env, genesis, es) && LinkedEntry(env, TipOf(genesis, es), e)
    ensures LinkedEntries(env, genesis, es + [e])
  {
    var fs := es + [e];
    forall i | 0 <= i < |fs|
      ensures LinkedEntry(env, TipOf(genesis, fs[..i]), fs[i])
    {
      assert fs[..i] == es[..i];
      if i == |es| {
        assert es[..i] == es;
      }
    }
  }

  lemma AnchorsAppend(env: Env, k: ChainKey, head: Head, es: seq<Entry>, e: Entry)
    requires Anchors(env, k, head, es)
    ensures Anchors(env, k, Advance(head, e.row), es + [e])
  {
  }

  /** Steps inside a transaction leave the committed state alone. */
  lemma SameChains(env: Env, db: Db, db': Db)
    requires db.log == db'.log && db.heads == db'.heads && db.lastId <= db'.lastId
    requires LogIds(db) && forall k :: ChainSound(env, db, k)
    ensures LogIds(db') && forall k :: ChainSound(env, db', k)
  {
    forall k
      ensures ChainSound(env, db', k)
    {
      assert ChainSound(env, db, k);
    }
  }

  lemma SameTx(env: Env, db: Db, db': Db, tx: Tx)
    requires db.log == db'.log && db.heads == db'.heads && db.lastId <= db'.lastId
    requires TxSound(env, db, tx)
    ensures TxSound(env, db', tx)
  {
  }

  /** One transaction begun or taken further, the others and the committed state unchanged. */
  lemma TxStep(env: Env, db: Db, db': Db, t: TxId, tx: Tx)
    requires Inv(env, db)
    requires db.log == db'.log && db.heads == db'.heads && db.lastId <= db'.lastId && db'.txs == db.txs[t := tx]
    requires TxSound(env, db', tx)
    requires forall u | u in db.txs && u != t :: Apart(tx, db.txs[u]) && Apart(db.txs[u], tx)
    ensures Inv(env, db')
  {
    SameChains(env, db, db');
    forall u | u in db'.txs
      ensures TxSound(env, db', db'.txs[u])
    {
      if u != t {
        SameTx(env, db, db', db.txs[u]);
      }
    }
  }

  lemma BeginStep(env: Env, db: Db, t: TxId, core: Core)
    requires Inv(env, db) && t !in db.txs
    ensures Inv(env, db.(txs := db.txs[t := Stamped(core)]))
  {
    TxStep(env, db, db.(txs := db.txs[t := Stamped(core)]), t, Stamped(core));
  }

  lemma AbortStep(env: Env, db: Db, t: TxId)
    requires Inv(env, db) && t in db.txs
    ensures Inv(env, db.(txs := db.txs - {t}))
  {
    var db' := db.(txs := db.txs - {t});
    SameChains(env, db, db');
    forall u | u in db'.txs
      ensures TxSound(env, db', db'.txs[u])
    {
      SameTx(env, db, db', db.txs[u]);
    }
  }

  /** A transaction whose chain nobody holds takes the head as it is committed. */
  lemma LockStep(env: Env, db: Db, t: TxId, core: Core)
    requires Inv(env, db) && t in db.txs && db.txs[t] == Stamped(core) && Free(db, KeyOf(core))
    ensures Inv(env, db.(txs := db.txs[t := Locked(core, HeadOf(env, db, KeyOf(core)))]))
  {
    var tx := Locked(core, HeadOf(env, db, KeyOf(core)));
    forall u | u in db.txs && u != t
      ensures Apart(tx, db.txs[u]) && Apart(db.txs[u], tx)
    {
      assert !Holds(db.txs[u], KeyOf(core));
    }
    TxStep(env, db, db.(txs := db.txs[t := tx]), t, tx);
  }

  /** An id not handed out before lies above every id in the log and in flight. */
  lemma FreshId(env: Env, db: Db, core: Core)
    requires Inv(env, db)
    ensures IdsBelow(Chain(db.log, KeyOf(core)), db.lastId + 1)
    ensures forall e | e in db.log :: e.row.core.id != db.lastId + 1
    ensures forall u | u in db.txs && HasId(db.txs[u]) :: CoreOf(db.txs[u]).id != db.lastId + 1
  {
    ChainMembers(db.log, KeyOf(core));
    forall u | u in db.txs
      ensures HasId(db.txs[u]) ==> CoreOf(db.txs[u]).id != db.lastId + 1
    {
      assert TxSound(env, db, db.txs[u]);
    }
  }

  lemma AllocateStep(env: Env, db: Db, t: TxId, core: Core, head: Head)
    requires Inv(env, db) && t in db.txs && db.txs[t] == Locked(core, head)
    ensures var tx := Numbered(core.(id := db.lastId + 1), head);
            Inv(env, db.(lastId := db.lastId + 1, txs := db.txs[t := tx]))
  {
    var tx := Numbered(core.(id := db.lastId + 1), head);
    var db' := db.(lastId := db.lastId + 1, txs := db.txs[t := tx]);
    FreshId(env, db, core);
    assert TxSound(env, db, db.txs[t]);
    forall u | u in db.txs && u != t
      ensures Apart(tx, db.txs[u]) && Apart(db.txs[u], tx)
    {
      assert Apart(db.txs[t], db.txs[u]) && Apart(db.txs[u], db.txs[t]);
    }
    TxStep(env, db, db', t, tx);
  }

  lemma WriteStep(env: Env, db: Db, t: TxId, core: Core, head: Head, entry: Entry)
    requires Inv(env, db) && t in db.txs && db.txs[t] == Numbered(core, head)
    requires LinkedEntry(env, head.tip, entry)
    requires entry.row.core == core.(args := entry.row.core.args, result := entry.row.core.result)
    ensures Inv(env, db.(txs := db.txs[t := Written(entry, Advance(head, entry.row))]))
  {
    var tx := Written(entry, Advance(head, entry.row));
    assert TxSound(env, db, db.txs[t]);
    forall u | u in db.txs && u != t
      ensures Apart(tx, db.txs[u]) && Apart(db.txs[u], tx)
    {
      assert Apart(db.txs[t], db.txs[u]) && Apart(db.txs[u], db.txs[t]);
    }
    TxStep(env, db, db.(txs := db.txs[t := tx]), t, tx);
  }

  lemma WriteKeeps(env: Env, db: Db, t: TxId)
    requires Inv(env, db) && Enabled(env, db, Write(t))
    ensures Inv(env, Apply(env, db, Write(t)))
  {
    var tx := db.txs[t];
    WriteStep(env, db, t, tx.core, tx.head, MakeEntry(env, tx.core, tx.head));
  }

  lemma IdsRiseAppend(es: seq<Entry>, e: Entry)
    requires IdsRise(es) && IdsBelow(es, e.row.core.id)
    ensures IdsRise(es + [e])
  {
  }

  /** The entry continues its chain, and the transaction's head anchors the chain with it. */
  ghost predicate Continues(env: Env, db: Db, e: Entry, next: Head) {
    var k := KeyOf(e.row.core);
    var es, head := Chain(db.log, k), HeadOf(env, db, k);
    && Anchors(env, k, head, es) && LinkedEntries(env, head.genesis, es) && IdsRise(es)
    && LinkedEntry(env, head.tip, e) && IdsBelow(es, e.row.core.id)
    && InChain(e, k) && next == Advance(head, e.row)
  }

  lemma WrittenContinues(env: Env, db: Db, t: TxId)
    requires Inv(env, db) && t in db.txs && db.txs[t].Written?
    ensures Continues(env, db, db.txs[t].entry, db.txs[t].head)
  {
    assert ChainSound(env, db, KeyOf(db.txs[t].entry.row.core)) && TxSound(env, db, db.txs[t]);
  }

  lemma ExtendedSound(env: Env, db: Db, db': Db, e: Entry, next: Head)
    requires Continues(env, db, e, next)
    requires var k := KeyOf(e.row.core);
             k in db'.heads && db'.heads[k] == next && Chain(db'.log, k) == Chain(db.log, k) + [e]
    ensures ChainSound(env, db', KeyOf(e.row.core))
  {
    var k := KeyOf(e.row.core);
    var es, head := Chain(db.log, k), HeadOf(env, db, k);
    LinkedAppend(env, head.genesis, es, e);
    AnchorsAppend(env, k, head, es, e);
    IdsRiseAppend(es, e);
  }

  lemma CommitExtends(env: Env, db: Db, t: TxId)
    requires t in db.txs && db.txs[t].Written? && Continues(env, db, db.txs[t].entry, db.txs[t].head)
    ensures ChainSound(env, Committed(db, t), KeyOf(db.txs[t].entry.row.core))
  {
    var e := db.txs[t].entry;
    ChainAppend(db.log, e, KeyOf(e.row.core));
    ExtendedSound(env, db, Committed(db, t), e, db.txs[t].head);
  }

  lemma CommitChain(env: Env, db: Db, t: TxId, k: ChainKey)
    requires Inv(env, db) && t in db.txs && db.txs[t].Written?
    ensures ChainSound(env, Committed(db, t), k)
  {
    var e := db.txs[t].entry;
    if k == KeyOf(e.row.core) {
      WrittenContinues(env, db, t);
      CommitExtends(env, db, t);
    } else {
      assert ChainSound(env, db, k);
      ChainAppend(db.log, e, k);
      assert Chain(db.log + [e], k) == Chain(db.log, k);
    }
  }

  lemma CommitTx(env: Env, db: Db, t: TxId, u: TxId)
    requires Inv(env, db) && t in db.txs && db.txs[t].Written? && u in db.txs && u != t
    ensures TxSound(env, Committed(db, t), db.txs[u])
  {
    var e := db.txs[t].entry;
    assert TxSound(env, db, db.txs[u]) && TxSound(env, db, db.txs[t]);
    assert Apart(db.txs[t], db.txs[u]);
    ChainAppend(db.log, e, KeyOf(CoreOf(db.txs[u])));
  }

  lemma CommitIds(env: Env, db: Db, t: TxId)
    requires Inv(env, db) && t in db.txs && db.txs[t].Written?
    ensures LogIds(Committed(db, t))
  {
    assert TxSound(env, db, db.txs[t]);
  }

  lemma CommitStep(env: Env, db: Db, t: TxId)
    requires Inv(env, db) && t in db.txs && db.txs[t].Written?
    ensures Inv(env, Committed(db, t))
  {
    var db' := Committed(db, t);
    forall k
      ensures ChainSound(env, db', k)
    {
      CommitChain(env, db, t, k);
    }
    forall u | u in db'.txs
      ensures TxSound(env, db', db'.txs[u])
    {
      CommitTx(env, db, t, u);
    }
    CommitIds(env, db, t);
  }

  lemma UnhashedChain(env: Env, db: Db, core: Core, k: ChainKey)
    requires Inv(env, db)
    ensures ChainSound(env, Unhashed(db, core), k)
  {
    var db' := Unhashed(db, core);
    assert ChainSound(env, db, k);
    ChainAppend(db.log, db'.log[|db.log|], k);
    assert Chain(db'.log, k) == Chain(db.log, k);
  }

  lemma UnhashedTx(env: Env, db: Db, core: Core, u: TxId)
    requires Inv(env, db) && u in db.txs
    ensures TxSound(env, Unhashed(db, core), db.txs[u])
  {
    var db' := Unhashed(db, core);
    assert TxSound(env, db, db.txs[u]);
    var k := KeyOf(CoreOf(db.txs[u]));
    ChainAppend(db.log, db'.log[|db.log|], k);
    assert Chain(db'.log, k) == Chain(db.log, k);
  }

  lemma UnhashedStep(env: Env, db: Db, core: Core)
    requires Inv(env, db)
    ensures Inv(env, Unhashed(db, core))
  {
    var db' := Unhashed(db, core);
    forall k
      ensures ChainSound(env, db', k)
    {
      UnhashedChain(env, db, core, k);
    }
    forall u | u in db'.txs
      ensures TxSound(env, db', db'.txs[u])
    {
      UnhashedTx(env, db, core, u);
    }
  }

  lemma StepKeeps(env: Env, db: Db, s: Step)
    requires Inv(env, db) && Enabled(env, db, s)
    ensures Inv(env, Apply(env, db, s))
  {
    match s
    case Begin(t, row, now) => BeginStep(env, db, t, Stamp(env, row, now));
    case Lock(t) => LockStep(env, db, t, db.txs[t].core);
    case Allocate(t) => AllocateStep(env, db, t, db.txs[t].core, db.txs[t].head);
    case Write(t) => WriteKeeps(env, db, t);
    case Commit(t) => CommitStep(env, db, t);
    case Abort(t) => AbortStep(env, db, t);
    case InsertUnhashed(core) => UnhashedStep(env, db, core);
  }

  /** In every reachable state, under any interleaving and any aborts, each chain's committed rows link its
      genesis to its head in id order and the head counts them exactly. */
  lemma {:induction false} RunSound(env: Env, steps: seq<Step>)
    requires Run(env, steps).Some?
    ensures Inv(env, Run(env, steps).value)
  {
    if steps == [] {
    } else {
      RunSound(env, steps[..|steps| - 1]);
      StepKeeps(env, Run(env, steps[..|steps| - 1]).value, steps[|steps| - 1]);
    }
  }

  // ---- what the hash covers ----

  /** The stored row still has the canonical bytes that were hashed. */
  predicate Faithful(env: Env, e: Entry) {
    CanonicalCore(env.norm, e.row.core) == Some(e.hashed)
  }

  /** The documents' texts are the eighth and ninth fields, so equal bytes mean equal documents. */
  lemma JoinedDocuments(c: Core, a: Bytes, r: Bytes, d: Core, b: Bytes, u: Bytes)
    requires NoSeparator(a) && NoSeparator(r) && NoSeparator(b) && NoSeparator(u)
    requires Join(FieldTexts(c, a, r)) == Join(FieldTexts(d, b, u))
    ensures a == b && r == u
  {
    FieldsPlain(c, a, r);
    FieldsPlain(d, b, u);
    SplitJoin(FieldTexts(c, a, r));
    SplitJoin(FieldTexts(d, b, u));
    assert FieldTexts(c, a, r)[7..9] == [a, r] && FieldTexts(d, b, u)[7..9] == [b, u];
  }

  /** A written row is faithful exactly when jsonb gives back documents with the same canonical form. */
  lemma WrittenFaithful(env: Env, c: Core, head: Head)
    requires Storable(env, c)
    ensures Faithful(env, MakeEntry(env, c, head))
            <==> CanonicalJson(env.norm, env.jsonb(c.args).value) == CanonicalJson(env.norm, c.args)
                 && CanonicalJson(env.norm, env.jsonb(c.result).value) == CanonicalJson(env.norm, c.result)
  {
    var d := Stored(env, c);
    var a, r := CanonicalJson(env.norm, c.args).value, CanonicalJson(env.norm, c.result).value;
    assert FieldTexts(d, a, r) == FieldTexts(c, a, r);
    if CanonicalCore(env.norm, d) == CanonicalCore(env.norm, c) {
      JsonLaws.CanonicalNoControl(env.norm, c.args);
      JsonLaws.CanonicalNoControl(env.norm, c.result);
      JsonLaws.CanonicalNoControl(env.norm, d.args);
      JsonLaws.CanonicalNoControl(env.norm, d.result);
      JoinedDocuments(c, a, r, d, CanonicalJson(env.norm, d.args).value, CanonicalJson(env.norm, d.result).value);
    }
  }

  const NEGATIVE_ZERO: Bytes := [DASH, ZERO]

  /** Postgres stores the number -0 as 0, which float64 tells apart: such a row no longer has the bytes
      that were hashed. */
  lemma NegativeZeroUnfaithful(env: Env, c: Core, head: Head)
    requires Storable(env, c) && c.args == NEGATIVE_ZERO && env.jsonb(NEGATIVE_ZERO) == Some([ZERO])
    requires env.norm(NEGATIVE_ZERO) == Some(NEGATIVE_ZERO) && env.norm([ZERO]) == Some([ZERO])
    ensures !Faithful(env, MakeEntry(env, c, head))
  {
    NumberCanonical(env.norm, NEGATIVE_ZERO);
    NumberCanonical(env.norm, [ZERO]);
    WrittenFaithful(env, c, head);
  }

  lemma NumberCanonical(norm: FloatText, token: Bytes)
    requires JsonText.NumberToken(token) && norm(token) == Some(token)
    ensures CanonicalJson(norm, token) == Some(token)
  {
    var v := JsonText.Number(token);
    assert Print(v) == token + [] == token;
    JsonLaws.CanonicalPrint(norm, v);
  }
}
