/** InsertAuditLog itself: one transaction against the tables, statement by statement. */
module AuditRepository {
  import opened CivilTime
  import opened AuditCore
  import opened HashChain
  import opened AuditLog
  import opened AuditRequest

  /** The row as it will be hashed, with the id it gets if no other is allocated before. */
  function Next(env: Env, db: Db, row: InsertRow, now: Time): Core
    requires Parses(env, row)
  {
    Stamp(env, row, now).(id := db.lastId + 1)
  }

  predicate Accepts(env: Env, db: Db, row: InsertRow, now: Time) {
    Parses(env, row) && Storable(env, Next(env, db, row, now))
  }

  /** What a successful InsertAuditLog makes of the database. */
  function Appended(env: Env, db: Db, row: InsertRow, now: Time): Db
    requires Accepts(env, db, row, now)
  {
    AppendedCore(env, db, Next(env, db, row, now))
  }

  function AppendedCore(env: Env, db: Db, c: Core): Db
    requires Storable(env, c)
  {
    var head := HeadOf(env, db, KeyOf(c));
    var entry := MakeEntry(env, c, head);
    Db(db.log + [entry], db.heads[KeyOf(c) := Advance(head, entry.row)], db.lastId + 1, db.txs)
  }

  /** The transaction with its id: nothing committed, one id used. */
  function AtNumber(env: Env, db: Db, t: TxId, c: Core): Db {
    Db(db.log, db.heads, db.lastId + 1, db.txs[t := Numbered(c, HeadOf(env, db, KeyOf(c)))])
  }

  /** The transaction holding the head row. */
  function AtLock(env: Env, db: Db, t: TxId, c: Core): Db {
    db.(txs := db.txs[t := Locked(c, HeadOf(env, db, KeyOf(c)))])
  }

  lemma Overwrite<V>(m: map<TxId, V>, t: TxId, a: V, b: V)
    ensures m[t := a][t := b] == m[t := b]
    ensures t !in m ==> m[t := a] - {t} == m
  {
    assert t !in m ==> (m[t := a] - {t}).Keys == m.Keys;
  }

  /** The transaction begun. */
  function AtStamp(db: Db, t: TxId, c: Core): Db {
    db.(txs := db.txs[t := Stamped(c)])
  }

  lemma LockApplies(env: Env, db: Db, t: TxId, c: Core)
    requires t !in db.txs && Free(db, KeyOf(c))
    ensures Enabled(env, AtStamp(db, t, c), Lock(t))
    ensures Apply(env, AtStamp(db, t, c), Lock(t)) == AtLock(env, db, t, c)
  {
    assert Free(AtStamp(db, t, c), KeyOf(c));
    Overwrite(db.txs, t, Stamped(c), Locked(c, HeadOf(env, db, KeyOf(c))));
  }

  lemma LockInv(env: Env, db: Db, t: TxId, c: Core)
    requires t !in db.txs && Free(db, KeyOf(c)) && Inv(env, AtStamp(db, t, c))
    ensures Inv(env, AtLock(env, db, t, c))
  {
    assert Free(AtStamp(db, t, c), KeyOf(c));
    LockStep(env, AtStamp(db, t, c), t, c);
    Overwrite(db.txs, t, Stamped(c), Locked(c, HeadOf(env, db, KeyOf(c))));
  }

  lemma NumberAfterLock(env: Env, db: Db, t: TxId, c: Core)
    ensures var d2 := AtLock(env, db, t, c); var n := c.(id := db.lastId + 1);
            d2.(lastId := d2.lastId + 1, txs := d2.txs[t := Numbered(n, HeadOf(env, db, KeyOf(c)))])
            == AtNumber(env, db, t, n)
  {
    var head := HeadOf(env, db, KeyOf(c));
    Overwrite(db.txs, t, Locked(c, head), Numbered(c.(id := db.lastId + 1), head));
  }

  lemma AllocateApplies(env: Env, db: Db, t: TxId, c: Core)
    ensures var d2 := AtLock(env, db, t, c);
            Enabled(env, d2, Allocate(t)) && Apply(env, d2, Allocate(t)) == AtNumber(env, db, t, c.(id := db.lastId + 1))
  {
    NumberAfterLock(env, db, t, c);
  }

  lemma AllocateAfter(env: Env, db: Db, t: TxId, c: Core)
    requires Inv(env, AtLock(env, db, t, c))
    ensures Inv(env, AtNumber(env, db, t, c.(id := db.lastId + 1)))
  {
    NumberAfterLock(env, db, t, c);
    AllocateStep(env, AtLock(env, db, t, c), t, c, HeadOf(env, db, KeyOf(c)));
  }

  lemma OpenInv(env: Env, db: Db, t: TxId, c: Core)
    requires Inv(env, db) && t !in db.txs && Free(db, KeyOf(c))
    ensures Inv(env, AtNumber(env, db, t, c.(id := db.lastId + 1)))
  {
    BeginStep(env, db, t, c);
    LockInv(env, db, t, c);
    AllocateAfter(env, db, t, c);
  }

  lemma OpenSteps(env: Env, db: Db, t: TxId, row: InsertRow, now: Time)
    requires t !in db.txs && Parses(env, row) && Free(db, KeyOf(Stamp(env, row, now)))
    ensures Enabled(env, db, Begin(t, row, now))
    ensures var d1 := Apply(env, db, Begin(t, row, now));
            Enabled(env, d1, Lock(t)) &&
            var d2 := Apply(env, d1, Lock(t));
            Enabled(env, d2, Allocate(t)) && Apply(env, d2, Allocate(t)) == AtNumber(env, db, t, Next(env, db, row, now))
  {
    LockApplies(env, db, t, Stamp(env, row, now));
    AllocateApplies(env, db, t, Stamp(env, row, now));
  }

  /** The transaction with its row and head update buffered. */
  function AtWrite(env: Env, db: Db, t: TxId, c: Core): Db
    requires Storable(env, c)
  {
    var head := HeadOf(env, db, KeyOf(c));
    var entry := MakeEntry(env, c, head);
    db.(lastId := db.lastId + 1, txs := db.txs[t := Written(entry, Advance(head, entry.row))])
  }

  lemma WriteApplies(env: Env, db: Db, t: TxId, c: Core)
    requires Storable(env, c)
    ensures var d := AtNumber(env, db, t, c);
            Enabled(env, d, Write(t)) && Apply(env, d, Write(t)) == AtWrite(env, db, t, c)
  {
    var head := HeadOf(env, db, KeyOf(c));
    var entry := MakeEntry(env, c, head);
    Overwrite(db.txs, t, Numbered(c, head), Written(entry, Advance(head, entry.row)));
  }

  lemma CommitApplies(env: Env, db: Db, t: TxId, c: Core)
    requires t !in db.txs && Storable(env, c)
    ensures Committed(AtWrite(env, db, t, c), t) == AppendedCore(env, db, c)
  {
    var tx := AtWrite(env, db, t, c).txs[t];
    Overwrite(db.txs, t, tx, tx);
  }

  lemma CloseInv(env: Env, db: Db, t: TxId, c: Core)
    requires t !in db.txs && Storable(env, c) && Inv(env, AtNumber(env, db, t, c))
    ensures Inv(env, AppendedCore(env, db, c))
  {
    WriteApplies(env, db, t, c);
    WriteKeeps(env, AtNumber(env, db, t, c), t);
    CommitApplies(env, db, t, c);
    CommitStep(env, AtWrite(env, db, t, c), t);
  }

  lemma CloseSteps(env: Env, db: Db, t: TxId, c: Core)
    requires t !in db.txs && Storable(env, c)
    ensures var d3 := AtNumber(env, db, t, c);
            Enabled(env, d3, Write(t)) &&
            var d4 := Apply(env, d3, Write(t));
            Enabled(env, d4, Commit(t)) && Apply(env, d4, Commit(t)) == AppendedCore(env, db, c)
  {
    WriteApplies(env, db, t, c);
    CommitApplies(env, db, t, c);
  }

  lemma AbortSteps(env: Env, db: Db, t: TxId, c: Core)
    requires t !in db.txs && Inv(env, AtNumber(env, db, t, c))
    ensures var d3 := AtNumber(env, db, t, c);
            && Enabled(env, d3, Abort(t)) && Apply(env, d3, Abort(t)) == db.(lastId := db.lastId + 1)
    ensures Inv(env, db.(lastId := db.lastId + 1))
  {
    var d3 := AtNumber(env, db, t, c);
    AbortStep(env, d3, t);
    assert d3.txs - {t} == db.txs;
  }

  class Repository {
    const env: Env
    var auditLog: seq<Entry>
    var chainHeads: map<ChainKey, Head>
    var lastId: nat
    var transactions: map<TxId, Tx>

    function Snapshot(): Db
      reads this
    {
      Db(auditLog, chainHeads, lastId, transactions)
    }

    constructor (env: Env)
      ensures this.env == env && Snapshot() == EMPTY && Inv(env, Snapshot())
    {
      this.env := env;
      auditLog, chainHeads, lastId, transactions := [], map[], 0, map[];
      new;
      assert EMPTY == Snapshot();
      RunSound(env, []);
    }

    method BeginTx(t: TxId, row: InsertRow, now: Time)
      requires Enabled(env, Snapshot(), Begin(t, row, now))
      modifies this
      ensures Snapshot() == Apply(env, old(Snapshot()), Begin(t, row, now))
    {
      transactions := transactions[t := Stamped(Stamp(env, row, now))];
    }

    /** INSERT ... ON CONFLICT DO NOTHING, then SELECT ... FOR UPDATE. */
    method LockHead(t: TxId)
      requires Enabled(env, Snapshot(), Lock(t))
      modifies this
      ensures Snapshot() == Apply(env, old(Snapshot()), Lock(t))
    {
      var core := transactions[t].core;
      var key := KeyOf(core);
      var head := FreshHead(env, key);
      if key in chainHeads {
        head := chainHeads[key];
      }
      transactions := transactions[t := Locked(core, head)];
    }

    method NextVal(t: TxId)
      requires Enabled(env, Snapshot(), Allocate(t))
      modifies this
      ensures Snapshot() == Apply(env, old(Snapshot()), Allocate(t))
    {
      lastId := lastId + 1;
      transactions := transactions[t := Numbered(transactions[t].core.(id := lastId), transactions[t].head)];
    }

    method WriteRow(t: TxId)
      requires Enabled(env, Snapshot(), Write(t))
      modifies this
      ensures Snapshot() == Apply(env, old(Snapshot()), Write(t))
    {
      var tx := transactions[t];
      var canonical := EncodeCore(env.norm, tx.core);
      var rowHash := RowHash(env.sha, tx.head.tip, canonical.value);
      var entry := Entry(VerifyRow(Stored(env, tx.core), tx.head.tip, rowHash), canonical.value);
      transactions := transactions[t := Written(entry, Advance(tx.head, entry.row))];
    }

    method CommitTx(t: TxId)
      requires Enabled(env, Snapshot(), Commit(t))
      modifies this
      ensures Snapshot() == Apply(env, old(Snapshot()), Commit(t))
    {
      var tx := transactions[t];
      auditLog := auditLog + [tx.entry];
      chainHeads := chainHeads[KeyOf(tx.entry.row.core) := tx.head];
      transactions := transactions - {t};
    }

    method RollbackTx(t: TxId)
      requires Enabled(env, Snapshot(), Abort(t))
      modifies this
      ensures Snapshot() == Apply(env, old(Snapshot()), Abort(t))
    {
      transactions := transactions - {t};
    }

    /** Once begun: take the head, take an id. */
    method TakeHead(t: TxId, ghost before: Db, ghost c: Core)
      requires Inv(env, before) && t !in before.txs && Free(before, KeyOf(c)) && Snapshot() == AtStamp(before, t, c)
      modifies this
      ensures Snapshot() == AtNumber(env, before, t, c.(id := before.lastId + 1))
      ensures Inv(env, Snapshot())
    {
      LockApplies(env, before, t, c);
      AllocateApplies(env, before, t, c);
      OpenInv(env, before, t, c);
      LockHead(t);
      NextVal(t);
    }

    /** Write the row and the head, and commit; or, if the database will not have the row, roll back. */
    method CloseTx(t: TxId, ghost before: Db, ghost c: Core) returns (ok: bool)
      requires t !in before.txs && Snapshot() == AtNumber(env, before, t, c) && Inv(env, Snapshot())
      modifies this
      ensures Inv(env, Snapshot()) && (ok <==> Storable(env, c))
      ensures Snapshot() == if ok then AppendedCore(env, before, c) else before.(lastId := before.lastId + 1)
    {
      assert transactions[t] == Numbered(c, HeadOf(env, before, KeyOf(c)));
      if !Storable(env, transactions[t].core) {
        AbortSteps(env, before, t, c);
        RollbackTx(t);
        return false;
      }
      CloseSteps(env, before, t, c);
      CloseInv(env, before, t, c);
      WriteRow(t);
      CommitTx(t);
      return true;
    }

    /** Append one row. The head row of its chain must not be held by another transaction, or the call
        would wait here. */
    method InsertAuditLog(t: TxId, row: InsertRow, now: Time) returns (ok: bool)
      requires Inv(env, Snapshot()) && t !in transactions
      requires Parses(env, row) ==> Free(Snapshot(), KeyOf(Stamp(env, row, now)))
      modifies this
      ensures Inv(env, Snapshot())
      ensures ok <==> Accepts(env, old(Snapshot()), row, now)
      ensures ok ==> Snapshot() == Appended(env, old(Snapshot()), row, now)
      ensures ok ==> lastId == old(lastId) + 1 && |auditLog| == |old(auditLog)| + 1 && old(auditLog) <= auditLog
      ensures ok ==> Records(env, row, now, lastId, auditLog[|old(auditLog)|])
      ensures !ok ==> auditLog == old(auditLog) && chainHeads == old(chainHeads) && transactions == old(transactions)
      ensures !ok ==> old(lastId) <= lastId <= old(lastId) + 1
    {
      if !Parses(env, row) {
        return false;
      }
      ghost var before := Snapshot();
      BeginTx(t, row, now);
      TakeHead(t, before, Stamp(env, row, now));
      ok := CloseTx(t, before, Next(env, before, row, now));
      if ok {
        EntryRecords(env, row, now, before.lastId + 1, HeadOf(env, before, KeyOf(Next(env, before, row, now))));
      }
    }
  }
}
