/** Write, export, verify: what `audit verify` answers about a ledger the append protocol produced. */
module AuditEndToEnd {
  import opened Bytes
  import opened CivilTime
  import opened Sorting
  import opened HashChain
  import opened AuditLog
  import opened AuditExport
  import opened AuditVerify
  import opened AuditMonths

  /** Written strictly inside the last second of its month: outside the window verification asks for. */
  predicate Late(e: Entry) {
    LateInMonth(e.row.core.createdAt)
  }

  /** A chain's rows as verification receives them, in commit order. */
  function OnTime(es: seq<Entry>): seq<VerifyRow> {
    if es == [] then []
    else
      var n := |es| - 1;
      OnTime(es[..n]) + (if Late(es[n]) then [] else [Exported(es[n].row)])
  }

  // ---- which rows reach a chain's verification ----

  lemma {:induction false} HashedRowsConcat(teamId: Bytes, a: seq<ExportEntry>, b: seq<ExportEntry>, m: Month)
    ensures HashedRows(teamId, a + b, m) == HashedRows(teamId, a, m) + HashedRows(teamId, b, m)
  {
    if b == [] {
      assert a + b == a;
    } else {
      var n := |b| - 1;
      assert (a + b)[..|a + b| - 1] == a + b[..n];
      HashedRowsConcat(teamId, a, b[..n], m);
    }
  }

  lemma {:induction false} HashedRowsMembers(teamId: Bytes, entries: seq<ExportEntry>, m: Month)
    ensures forall x :: x in HashedRows(teamId, entries, m) <==>
              exists e | e in entries :: Hashed(e) && MonthOf(e.time) == m && x == ToVerifyRow(teamId, e)
  {
    if entries == [] {
    } else {
      var n := |entries| - 1;
      HashedRowsMembers(teamId, entries[..n], m);
      assert entries == entries[..n] + [entries[n]];
    }
  }

  ghost predicate DistinctIds(entries: seq<ExportEntry>) {
    forall i, j | 0 <= i < j < |entries| :: entries[i].id != entries[j].id
  }

  lemma {:induction false} HashedRowsUnique(teamId: Bytes, entries: seq<ExportEntry>, m: Month)
    requires DistinctIds(entries)
    ensures UniqueKeys(IdKey, HashedRows(teamId, entries, m))
  {
    if entries == [] {
    } else {
      var n := |entries| - 1;
      HashedRowsUnique(teamId, entries[..n], m);
      HashedRowsMembers(teamId, entries[..n], m);
      forall x | x in HashedRows(teamId, entries[..n], m)
        ensures x.core.id != entries[n].id
      {
      }
    }
  }

  lemma WindowMembers(db: Db, teamId: Bytes, m: Month)
    ensures forall row :: row in MonthRows(db, teamId, m) <==>
              row in RowsOf(db) && row.core.teamId == teamId
              && MonthOf(row.core.createdAt) == m && !LateInMonth(row.core.createdAt)
  {
    var p := InWindowOf(teamId, MonthStart(m), LastSecond(m));
    FilterMember(p, RowsOf(db));
    SortMembers(RowKey, Filter(p, RowsOf(db)));
    forall row
      ensures p(row) <==> row.core.teamId == teamId && MonthOf(row.core.createdAt) == m && !LateInMonth(row.core.createdAt)
    {
      MonthWindow(row.core.createdAt, m);
    }
  }

  lemma WindowIds(db: Db, teamId: Bytes, m: Month)
    requires LogIds(db)
    ensures DistinctIds(Entries(MonthRows(db, teamId, m)))
  {
    var w := MonthRows(db, teamId, m);
    var p := InWindowOf(teamId, MonthStart(m), LastSecond(m));
    LogKeysUnique(db);
    FilterUnique(RowKey, p, RowsOf(db));
    SortSorts(RowKey, Filter(p, RowsOf(db)));
    WindowMembers(db, teamId, m);
    EntriesAt(w);
    forall i, j | 0 <= i < j < |w|
      ensures w[i].core.id != w[j].core.id
    {
      assert Before(RowKey(w[i]), RowKey(w[j]));
      assert w[i] in RowsOf(db) && w[j] in RowsOf(db);
    }
  }

  lemma EntriesMembers(rows: seq<VerifyRow>)
    ensures forall e :: e in Entries(rows) <==> exists row | row in rows :: e == NewExportEntry(row)
  {
    EntriesAt(rows);
  }

  lemma {:induction false} NoneHashed(teamId: Bytes, entries: seq<ExportEntry>, m: Month)
    requires forall e | e in entries :: MonthOf(e.time) != m
    ensures HashedRows(teamId, entries, m) == []
  {
    if entries == [] {
    } else {
      assert entries[|entries| - 1] in entries;
      NoneHashed(teamId, entries[..|entries| - 1], m);
    }
  }

  /** Another month's export contributes nothing. */
  lemma OtherMonth(db: Db, teamId: Bytes, n: Month, m: Month)
    requires n != m
    ensures HashedRows(teamId, Entries(MonthRows(db, teamId, n)), m) == []
  {
    var rows := MonthRows(db, teamId, n);
    WindowMembers(db, teamId, n);
    EntriesMembers(rows);
    NoneHashed(teamId, Entries(rows), m);
  }

  ghost predicate DistinctMonths(months: seq<Month>) {
    forall i, j | 0 <= i < j < |months| :: months[i] != months[j]
  }

  /** The hashed rows one month's export yields for its own chain. */
  function MonthHashed(db: Db, teamId: Bytes, m: Month): seq<VerifyRow> {
    HashedRows(teamId, Entries(MonthRows(db, teamId, m)), m)
  }

  lemma {:induction false} RangeRowsNone(db: Db, teamId: Bytes, months: seq<Month>, m: Month)
    requires m !in months
    ensures HashedRows(teamId, RangeEntries(db, teamId, months), m) == []
  {
    if months == [] {
    } else {
      var n := |months| - 1;
      RangeRowsNone(db, teamId, months[..n], m);
      OtherMonth(db, teamId, months[n], m);
      HashedRowsConcat(teamId, RangeEntries(db, teamId, months[..n]), Entries(MonthRows(db, teamId, months[n])), m);
    }
  }

  lemma {:induction false} RangeRows(db: Db, teamId: Bytes, months: seq<Month>, m: Month)
    requires DistinctMonths(months) && m in months
    ensures HashedRows(teamId, RangeEntries(db, teamId, months), m) == MonthHashed(db, teamId, m)
  {
    var n := |months| - 1;
    var prefix := months[..n];
    var last := Entries(MonthRows(db, teamId, months[n]));
    HashedRowsConcat(teamId, RangeEntries(db, teamId, prefix), last, m);
    if months[n] == m {
      RangeRowsNone(db, teamId, prefix, m);
    } else {
      RangeRows(db, teamId, prefix, m);
      OtherMonth(db, teamId, months[n], m);
    }
  }

  lemma {:induction false} OnTimeMembers(es: seq<Entry>)
    ensures forall x :: x in OnTime(es) <==> exists e | e in es :: !Late(e) && x == Exported(e.row)
    ensures |OnTime(es)| <= |es|
  {
    if es == [] {
    } else {
      var n := |es| - 1;
      OnTimeMembers(es[..n]);
      assert es == es[..n] + [es[n]];
    }
  }

  lemma {:induction false} OnTimeSorted(es: seq<Entry>)
    requires IdsRise(es)
    ensures Sorted(IdKey, OnTime(es))
  {
    if es == [] {
    } else {
      var n := |es| - 1;
      OnTimeSorted(es[..n]);
      OnTimeMembers(es[..n]);
      forall x | x in OnTime(es[..n])
        ensures x.core.id < es[n].row.core.id
      {
        var e :| e in es[..n] && x == Exported(e.row);
      }
    }
  }

  lemma RowInChain(db: Db, teamId: Bytes, m: Month, row: VerifyRow)
    requires row in MonthRows(db, teamId, m) && row.rowHash != []
    ensures Exported(row) in OnTime(Chain(db.log, ChainKey(teamId, m)))
  {
    WindowMembers(db, teamId, m);
    var i :| 0 <= i < |RowsOf(db)| && RowsOf(db)[i] == row;
    ChainMembers(db.log, ChainKey(teamId, m));
    OnTimeMembers(Chain(db.log, ChainKey(teamId, m)));
    assert db.log[i] in db.log;
  }

  lemma HashedInChain(db: Db, teamId: Bytes, m: Month, x: VerifyRow)
    requires x in MonthHashed(db, teamId, m)
    ensures x in OnTime(Chain(db.log, ChainKey(teamId, m)))
  {
    var rows := MonthRows(db, teamId, m);
    HashedRowsMembers(teamId, Entries(rows), m);
    var e :| e in Entries(rows) && Hashed(e) && MonthOf(e.time) == m && x == ToVerifyRow(teamId, e);
    EntriesMembers(rows);
    var row :| row in rows && e == NewExportEntry(row);
    HexRoundTrip(row.rowHash);
    assert row.core.teamId == teamId by {
      WindowMembers(db, teamId, m);
    }
    RowInChain(db, teamId, m, row);
  }

  lemma ChainInHashed(db: Db, teamId: Bytes, m: Month, x: VerifyRow)
    requires x in OnTime(Chain(db.log, ChainKey(teamId, m)))
    ensures x in MonthHashed(db, teamId, m)
  {
    var rows, es := MonthRows(db, teamId, m), Chain(db.log, ChainKey(teamId, m));
    OnTimeMembers(es);
    var e :| e in es && !Late(e) && x == Exported(e.row);
    ChainMembers(db.log, ChainKey(teamId, m));
    var i :| 0 <= i < |db.log| && db.log[i] == e;
    assert RowsOf(db)[i] == e.row;
    WindowMembers(db, teamId, m);
    assert e.row in rows;
    HexRoundTrip(e.row.rowHash);
    EntriesMembers(rows);
    assert NewExportEntry(e.row) in Entries(rows);
    HashedRowsMembers(teamId, Entries(rows), m);
  }

  /** What a month's export yields for a chain are the chain's rows, in some order. */
  lemma FetchedMembers(env: Env, db: Db, teamId: Bytes, m: Month)
    requires Inv(env, db)
    ensures SameMembers(MonthHashed(db, teamId, m), OnTime(Chain(db.log, ChainKey(teamId, m))))
  {
    var h, es := MonthHashed(db, teamId, m), Chain(db.log, ChainKey(teamId, m));
    forall x
      ensures x in h <==> x in OnTime(es)
    {
      if x in h {
        HashedInChain(db, teamId, m, x);
      }
      if x in OnTime(es) {
        ChainInHashed(db, teamId, m, x);
      }
    }
  }

  /** The re-sort by id puts a month's rows back into commit order, whatever order their timestamps have. */
  lemma ResortedRows(env: Env, db: Db, teamId: Bytes, m: Month)
    requires Inv(env, db)
    ensures Sort(IdKey, MonthHashed(db, teamId, m)) == OnTime(Chain(db.log, ChainKey(teamId, m)))
  {
    var h, es := MonthHashed(db, teamId, m), Chain(db.log, ChainKey(teamId, m));
    assert ChainSound(env, db, ChainKey(teamId, m));
    WindowIds(db, teamId, m);
    HashedRowsUnique(teamId, Entries(MonthRows(db, teamId, m)), m);
    OnTimeSorted(es);
    FetchedMembers(env, db, teamId, m);
    SortIs(IdKey, h, OnTime(es));
  }
}
