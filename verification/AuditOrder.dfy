/** Why verification sorts by id: taken in export order, a chain's rows link exactly when their timestamps rise with
    their ids, and concurrent writers can make them not. */
module AuditOrder {
  import opened Bytes
  import opened CivilTime
  import opened Sorting
  import opened JsonCanon
  import opened AuditCore
  import opened HashChain
  import opened AuditLog
  import opened AuditRepository
  import opened AuditExport
  import opened AuditVerify
  import opened AuditMonths
  import opened AuditEndToEnd
  import opened AuditVerdict
  import opened AuditAnchor

  // ---- export order ----

  /** Later ids never have earlier timestamps. */
  ghost predicate Rises(es: seq<Entry>) {
    forall i, j | 0 <= i < j < |es| :: Ticks(es[i].row.core.createdAt) <= Ticks(es[j].row.core.createdAt)
  }

  ghost predicate Keyed(x: VerifyRow, rows: seq<VerifyRow>) {
    exists row | row in rows :: RowKey(x) == RowKey(row)
  }

  /** The hashed rows of an export keep its (created_at, id) order, each with the key of the row it came from. */
  lemma {:induction false} HashedRowsSorted(teamId: Bytes, rows: seq<VerifyRow>, m: Month)
    requires Sorted(RowKey, rows)
    ensures Sorted(RowKey, HashedRows(teamId, Entries(rows), m))
    ensures forall x | x in HashedRows(teamId, Entries(rows), m) :: Keyed(x, rows)
    decreases |rows|
  {
    if rows == [] {
    } else {
      var front, last := rows[..|rows| - 1], rows[|rows| - 1];
      HashedRowsSorted(teamId, front, m);
      EntriesSnoc(front, last);
      assert rows == front + [last];
      HashedRowsStep(teamId, Entries(front), NewExportEntry(last), m);
      SortedSnoc(HashedRows(teamId, Entries(front), m), front, last, ToVerifyRow(teamId, NewExportEntry(last)));
    }
  }

  lemma SortedSnoc(xs: seq<VerifyRow>, front: seq<VerifyRow>, last: VerifyRow, x: VerifyRow)
    requires Sorted(RowKey, xs) && Sorted(RowKey, front + [last]) && RowKey(x) == RowKey(last)
    requires forall y | y in xs :: Keyed(y, front)
    ensures Sorted(RowKey, xs + [x])
    ensures forall y | y in xs + [x] :: Keyed(y, front + [last])
  {
    forall y | y in xs
      ensures Before(RowKey(y), RowKey(x)) && Keyed(y, front + [last])
    {
      var row :| row in front && RowKey(y) == RowKey(row);
      var i :| 0 <= i < |front| && front[i] == row;
      assert (front + [last])[i] == row && (front + [last])[|front|] == last && row in front + [last];
    }
    assert last in front + [last];
  }

  lemma EntriesSnoc(front: seq<VerifyRow>, last: VerifyRow)
    ensures Entries(front + [last]) == Entries(front) + [NewExportEntry(last)]
  {
    EntriesConcat(front, [last]);
    assert [last][1..] == [];
  }

  lemma ExportSorted(db: Db, teamId: Bytes, m: Month)
    requires LogIds(db)
    ensures Sorted(RowKey, MonthHashed(db, teamId, m))
  {
    var p := InWindowOf(teamId, MonthStart(m), LastSecond(m));
    LogKeysUnique(db);
    FilterUnique(RowKey, p, RowsOf(db));
    SortSorts(RowKey, Filter(p, RowsOf(db)));
    HashedRowsSorted(teamId, MonthRows(db, teamId, m), m);
  }

  /** A chain none of whose rows is late is exported in commit order exactly when its timestamps rise with its ids. */
  lemma ExportOrderIff(env: Env, db: Db, teamId: Bytes, m: Month)
    requires Inv(env, db) && NoneLate(Chain(db.log, ChainKey(teamId, m)))
    ensures var es := Chain(db.log, ChainKey(teamId, m));
            MonthHashed(db, teamId, m) == OnTime(es) <==> Rises(es)
  {
    var es := Chain(db.log, ChainKey(teamId, m));
    assert ChainSound(env, db, ChainKey(teamId, m));
    OnTimeAll([], es);
    ExportSorted(db, teamId, m);
    FetchedMembers(env, db, teamId, m);
    RisesIffSorted(es);
    if Rises(es) {
      SortedUnique(RowKey, MonthHashed(db, teamId, m), OnTime(es));
    }
  }

  lemma RisesIffSorted(es: seq<Entry>)
    requires IdsRise(es) && NoneLate(es)
    ensures Rises(es) <==> Sorted(RowKey, OnTime(es))
  {
    OnTimeAll([], es);
    forall i, j | 0 <= i < j < |es|
      ensures Ticks(es[i].row.core.createdAt) <= Ticks(es[j].row.core.createdAt) <==>
              Before(RowKey(OnTime(es)[i]), RowKey(OnTime(es)[j]))
    {
      assert es[i].row.core.id < es[j].row.core.id;
      assert OnTime(es)[i] == Exported(es[i].row) && OnTime(es)[j] == Exported(es[j].row);
    }
  }

  // ---- another order does not link ----

  ghost predicate DistinctRows(rows: seq<VerifyRow>) {
    forall i, j | 0 <= i < j < |rows| :: rows[i].core.id != rows[j].core.id
  }

  lemma FirstDifference(a: seq<VerifyRow>, b: seq<VerifyRow>) returns (i: nat)
    requires |a| == |b| && a != b
    ensures i < |a| && a[..i] == b[..i] && a[i] != b[i]
    ensures forall k | 0 <= k < i :: a[k] == b[k]
  {
    i := 0;
    while a[i] == b[i]
      invariant i < |a| && a[..i] == b[..i] && forall k | 0 <= k < i :: a[k] == b[k]
      invariant exists k :: i <= k < |a| && a[k] != b[k]
      decreases |a| - i
    {
      i := i + 1;
    }
  }

  lemma LinkedRow(sha: Hash, norm: FloatText, genesis: Bytes, rows: seq<VerifyRow>, i: nat)
    requires Linked(sha, norm, genesis, rows) && i < |rows|
    ensures Linked(sha, norm, genesis, rows[..i]) && Follows(sha, norm, LastHash(genesis, rows[..i]), rows[i])
  {
    LinkedPrefix(sha, norm, genesis, rows, i + 1);
    LinkedStep(sha, norm, genesis, rows, i);
  }

  lemma CoresApart(norm: FloatText, c: Core, d: Core)
    requires CanonicalCore(norm, c).Some? && CanonicalCore(norm, d).Some? && c.id != d.id
    ensures CanonicalCore(norm, c) != CanonicalCore(norm, d)
  {
    CoreRoundTrip(norm, c);
    CoreRoundTrip(norm, d);
  }

  /** Two rows of one linked chain that share their hash collide. */
  lemma SharedHashCollides(sha: Hash, norm: FloatText, genesis: Digest, rows: seq<VerifyRow>, i: nat, j: nat)
    returns (x: Bytes, y: Bytes)
    requires Linked(sha, norm, genesis, rows) && DistinctRows(rows) && i < j < |rows|
    requires rows[i].rowHash == rows[j].rowHash
    ensures Collision(sha, x, y)
  {
    LinkedRow(sha, norm, genesis, rows, i);
    LinkedRow(sha, norm, genesis, rows, j);
    LinkedDigest(sha, norm, genesis, rows[..i]);
    LinkedDigest(sha, norm, genesis, rows[..j]);
    CoresApart(norm, rows[i].core, rows[j].core);
    x, y := SameHashSameRow(sha, norm, LastHash(genesis, rows[..i]), rows[i], LastHash(genesis, rows[..j]), rows[j]);
  }

  /** If a row could stand at an earlier place of its chain, the hash before that place occurs twice. */
  lemma EarlierPlaceCollides(
    sha: Hash, norm: FloatText, teamId: Bytes, month: Month, rows: seq<VerifyRow>, i: nat, j: nat)
    returns (x: Bytes, y: Bytes)
    requires NoSeparator(teamId) && Linked(sha, norm, GenesisHash(sha, teamId, month), rows) && DistinctRows(rows)
    requires i < j < |rows| && rows[j].prevHash == LastHash(GenesisHash(sha, teamId, month), rows[..i])
    ensures Collision(sha, x, y)
  {
    if i == 0 {
      x, y := GenesisAgainCollides(sha, norm, teamId, month, rows, j);
    } else {
      x, y := SamePlaceCollides(sha, norm, GenesisHash(sha, teamId, month), rows, i, j);
    }
  }

  lemma GenesisAgainCollides(sha: Hash, norm: FloatText, teamId: Bytes, month: Month, rows: seq<VerifyRow>, j: nat)
    returns (x: Bytes, y: Bytes)
    requires NoSeparator(teamId) && Linked(sha, norm, GenesisHash(sha, teamId, month), rows)
    requires 0 < j < |rows| && rows[j].prevHash == GenesisHash(sha, teamId, month)
    ensures Collision(sha, x, y)
  {
    LinkedRow(sha, norm, GenesisHash(sha, teamId, month), rows, j);
    x, y := NoReturn(sha, norm, teamId, month, rows[..j]);
  }

  lemma SamePlaceCollides(sha: Hash, norm: FloatText, genesis: Digest, rows: seq<VerifyRow>, i: nat, j: nat)
    returns (x: Bytes, y: Bytes)
    requires Linked(sha, norm, genesis, rows) && DistinctRows(rows)
    requires 0 < i < j < |rows| && rows[j].prevHash == LastHash(genesis, rows[..i])
    ensures Collision(sha, x, y)
  {
    PlaceHash(sha, norm, genesis, rows, j);
    x, y := SharedHashCollides(sha, norm, genesis, rows, i - 1, j - 1);
  }

  lemma PlaceHash(sha: Hash, norm: FloatText, genesis: Bytes, rows: seq<VerifyRow>, j: nat)
    requires Linked(sha, norm, genesis, rows) && 0 < j < |rows|
    ensures rows[j].prevHash == LastHash(genesis, rows[..j]) == rows[j - 1].rowHash
  {
    LinkedRow(sha, norm, genesis, rows, j);
  }

  /** A linked chain's rows in any other order do not link, or a collision comes out. */
  lemma OtherOrderCollides(
    sha: Hash, norm: FloatText, teamId: Bytes, month: Month, rows: seq<VerifyRow>, other: seq<VerifyRow>)
    returns (x: Bytes, y: Bytes)
    requires NoSeparator(teamId) && DistinctRows(rows) && DistinctRows(other)
    requires SameMembers(rows, other) && |rows| == |other| && rows != other
    requires Linked(sha, norm, GenesisHash(sha, teamId, month), rows)
    requires Linked(sha, norm, GenesisHash(sha, teamId, month), other)
    ensures Collision(sha, x, y)
  {
    var i := FirstDifference(rows, other);
    assert other[i] in rows;
    var j :| 0 <= j < |rows| && rows[j] == other[i];
    LinkedRow(sha, norm, GenesisHash(sha, teamId, month), other, i);
    x, y := EarlierPlaceCollides(sha, norm, teamId, month, rows, i, j);
  }

  /** Verified without the re-sort, a clean chain links if and only if its timestamps rise with its ids, or a collision
      comes out. */
  lemma UnsortedVerdict(env: Env, db: Db, teamId: Bytes, m: Month) returns (x: Bytes, y: Bytes)
    requires Inv(env, db) && NoSeparator(teamId) && AllClean(env, Chain(db.log, ChainKey(teamId, m)))
    ensures var es := Chain(db.log, ChainKey(teamId, m));
            var linked := Linked(env.sha, env.norm, GenesisHash(env.sha, teamId, m), MonthHashed(db, teamId, m));
            (Rises(es) ==> linked) && (linked ==> Rises(es) || Collision(env.sha, x, y))
  {
    var es, genesis := Chain(db.log, ChainKey(teamId, m)), GenesisHash(env.sha, teamId, m);
    var rows, other := OnTime(es), MonthHashed(db, teamId, m);
    assert ChainSound(env, db, ChainKey(teamId, m));
    assert NoneLate(es) by {
      assert forall e | e in es :: Clean(env, e);
    }
    CleanLinked(env, genesis, es);
    ExportOrderIff(env, db, teamId, m);
    x, y := [], [];
    if !Rises(es) && Linked(env.sha, env.norm, genesis, other) {
      FetchedDistinct(env, db, teamId, m);
      FetchedMembers(env, db, teamId, m);
      x, y := OtherOrderCollides(env.sha, env.norm, teamId, m, rows, other);
    }
  }

  lemma FetchedDistinct(env: Env, db: Db, teamId: Bytes, m: Month)
    requires Inv(env, db) && NoneLate(Chain(db.log, ChainKey(teamId, m)))
    ensures DistinctRows(OnTime(Chain(db.log, ChainKey(teamId, m)))) && DistinctRows(MonthHashed(db, teamId, m))
    ensures |OnTime(Chain(db.log, ChainKey(teamId, m)))| == |MonthHashed(db, teamId, m)|
  {
    var es := Chain(db.log, ChainKey(teamId, m));
    assert ChainSound(env, db, ChainKey(teamId, m));
    OnTimeAll([], es);
    WindowIds(db, teamId, m);
    HashedRowsUnique(teamId, Entries(MonthRows(db, teamId, m)), m);
    UniqueIds(MonthHashed(db, teamId, m));
    ResortedRows(env, db, teamId, m);
    SortMembers(IdKey, MonthHashed(db, teamId, m));
    forall i, j | 0 <= i < j < |es|
      ensures OnTime(es)[i].core.id != OnTime(es)[j].core.id
    {
      assert OnTime(es)[i] == Exported(es[i].row) && OnTime(es)[j] == Exported(es[j].row);
    }
  }

  lemma UniqueIds(rows: seq<VerifyRow>)
    requires UniqueKeys(IdKey, rows)
    ensures DistinctRows(rows)
  {
    forall i, j | 0 <= i < j < |rows|
      ensures rows[i].core.id != rows[j].core.id
    {
      assert IdKey(rows[i]) != IdKey(rows[j]);
    }
  }

  // ---- a run that reverses them ----

  /** What a begun transaction does when nothing comes between. */
  function Finish(t: TxId): seq<Step> {
    [Lock(t), Allocate(t), Write(t), Commit(t)]
  }

  lemma {:induction false} ContinueConcat(env: Env, db: Db, a: seq<Step>, b: seq<Step>)
    requires Continue(env, db, a).Some?
    ensures Continue(env, db, a + b) == Continue(env, Continue(env, db, a).value, b)
    decreases |a|
  {
    if a == [] {
      assert a + b == b;
    } else {
      assert (a + b)[1..] == a[1..] + b;
      ContinueConcat(env, Apply(env, db, a[0]), a[1..], b);
    }
  }

  lemma ContinueOne(env: Env, db: Db, s: Step)
    requires Enabled(env, db, s)
    ensures Continue(env, db, [s]) == Some(Apply(env, db, s))
  {
    assert [s][1..] == [];
  }

  lemma ContinueTwo(env: Env, db: Db, s: Step, s': Step)
    requires Enabled(env, db, s) && Enabled(env, Apply(env, db, s), s')
    ensures Continue(env, db, [s, s']) == Some(Apply(env, Apply(env, db, s), s'))
  {
    assert [s, s'][1..] == [s'];
    ContinueOne(env, Apply(env, db, s), s');
  }

  lemma {:induction false} RunContinues(env: Env, before: seq<Step>, db: Db, steps: seq<Step>)
    requires Run(env, before) == Some(db) && Continue(env, db, steps).Some?
    ensures Run(env, before + steps) == Continue(env, db, steps)
    decreases |steps|
  {
    if steps == [] {
      assert before + steps == before;
    } else {
      RunSnoc(env, before, db, steps[0]);
      HeadMoves(before, steps);
      RunContinues(env, before + [steps[0]], Apply(env, db, steps[0]), steps[1..]);
    }
  }

  lemma HeadMoves(before: seq<Step>, steps: seq<Step>)
    requires steps != []
    ensures before + steps == (before + [steps[0]]) + steps[1..]
  {
  }

  lemma FinishRuns(env: Env, db: Db, t: TxId, c: Core)
    requires t !in db.txs && Free(db, KeyOf(c)) && Storable(env, c.(id := db.lastId + 1))
    ensures Continue(env, AtStamp(db, t, c), Finish(t)) == Some(AppendedCore(env, db, c.(id := db.lastId + 1)))
  {
    var n := c.(id := db.lastId + 1);
    LockApplies(env, db, t, c);
    AllocateApplies(env, db, t, c);
    ContinueTwo(env, AtStamp(db, t, c), Lock(t), Allocate(t));
    CloseSteps(env, db, t, n);
    ContinueTwo(env, AtNumber(env, db, t, n), Write(t), Commit(t));
    ContinueConcat(env, AtStamp(db, t, c), [Lock(t), Allocate(t)], [Write(t), Commit(t)]);
    assert Finish(t) == [Lock(t), Allocate(t)] + [Write(t), Commit(t)];
  }

  /** Two writers stamp their rows; the one that stamped later gets the head first. */
  function SwappedSteps(row: InsertRow, early: Time, late: Time): seq<Step> {
    [Begin(0, row, early), Begin(1, row, late)] + (Finish(1) + Finish(0))
  }

  /** The rows as they are hashed: the later stamp has the first id. */
  function First(env: Env, row: InsertRow, late: Time): Core
    requires Parses(env, row)
  {
    Stamp(env, row, late).(id := 1)
  }

  function Second(env: Env, row: InsertRow, early: Time): Core
    requires Parses(env, row)
  {
    Stamp(env, row, early).(id := 2)
  }

  predicate BothStorable(env: Env, row: InsertRow, early: Time, late: Time) {
    Parses(env, row) && Storable(env, First(env, row, late)) && Storable(env, Second(env, row, early))
  }

  function Swapped(env: Env, row: InsertRow, early: Time, late: Time): Db
    requires BothStorable(env, row, early, late)
  {
    AppendedCore(env, AppendedCore(env, EMPTY, First(env, row, late)), Second(env, row, early))
  }

  lemma TwoBegun(env: Env, row: InsertRow, early: Time, late: Time)
    requires Parses(env, row)
    ensures Continue(env, EMPTY, [Begin(0, row, early), Begin(1, row, late)])
            == Some(AtStamp(AtStamp(EMPTY, 0, Stamp(env, row, early)), 1, Stamp(env, row, late)))
  {
    ContinueTwo(env, EMPTY, Begin(0, row, early), Begin(1, row, late));
  }

  /** A transaction that only holds its stamp stands aside while another commits. */
  lemma StandsAside(env: Env, db: Db, t: TxId, c: Core, other: Core)
    requires Storable(env, other)
    ensures AppendedCore(env, AtStamp(db, t, c), other) == AtStamp(AppendedCore(env, db, other), t, c)
  {
  }

  lemma SwappedRuns(env: Env, row: InsertRow, early: Time, late: Time)
    requires BothStorable(env, row, early, late)
    ensures Run(env, SwappedSteps(row, early, late)) == Some(Swapped(env, row, early, late))
  {
    var c0, c1 := Stamp(env, row, early), Stamp(env, row, late);
    var begun := AtStamp(EMPTY, 0, c0);
    var between := AppendedCore(env, EMPTY, First(env, row, late));
    TwoBegun(env, row, early, late);
    FinishRuns(env, begun, 1, c1);
    StandsAside(env, EMPTY, 0, c0, First(env, row, late));
    FinishRuns(env, between, 0, c0);
    ContinueConcat(env, AtStamp(begun, 1, c1), Finish(1), Finish(0));
    ContinueConcat(env, EMPTY, [Begin(0, row, early), Begin(1, row, late)], Finish(1) + Finish(0));
    RunContinues(env, [], EMPTY, SwappedSteps(row, early, late));
    assert [] + SwappedSteps(row, early, late) == SwappedSteps(row, early, late);
  }

  /** Both rows are in one month, on time, and stored as they were hashed; their stamps run against their ids. */
  predicate Reversed(env: Env, row: InsertRow, early: Time, late: Time) {
    && BothStorable(env, row, early, late)
    && MonthOf(early) == MonthOf(late) && Ticks(TruncateMicro(early)) < Ticks(TruncateMicro(late))
    && var log := Swapped(env, row, early, late).log;
       |log| == 2 && Clean(env, log[0]) && Clean(env, log[1])
  }

  lemma SwappedLog(env: Env, row: InsertRow, early: Time, late: Time)
    requires BothStorable(env, row, early, late) && MonthOf(early) == MonthOf(late)
    ensures var log := Swapped(env, row, early, late).log;
            var k := ChainKey(env.uuid(row.teamId).value, MonthOf(late));
            && |log| == 2 && InChain(log[0], k) && InChain(log[1], k)
            && log[0].row.core.createdAt == TruncateMicro(late) && log[1].row.core.createdAt == TruncateMicro(early)
  {
    var between := AppendedCore(env, EMPTY, First(env, row, late));
    AppendsOne(env, EMPTY, First(env, row, late));
    AppendsOne(env, between, Second(env, row, early));
  }

  lemma AppendsOne(env: Env, db: Db, c: Core)
    requires Storable(env, c)
    ensures var log := AppendedCore(env, db, c).log;
            && |log| == |db.log| + 1 && log[..|db.log|] == db.log
            && InChain(log[|db.log|], KeyOf(c)) && log[|db.log|].row.core.createdAt == c.createdAt
  {
  }

  lemma WholeChain(log: seq<Entry>, k: ChainKey)
    requires |log| == 2 && InChain(log[0], k) && InChain(log[1], k)
    ensures Chain(log, k) == log
  {
    assert log == [] + [log[0]] + [log[1]];
    ChainAppend([], log[0], k);
    ChainAppend([] + [log[0]], log[1], k);
  }

  lemma SwappedChain(env: Env, row: InsertRow, early: Time, late: Time)
    requires Reversed(env, row, early, late)
    ensures var db := Swapped(env, row, early, late);
            var es := Chain(db.log, ChainKey(env.uuid(row.teamId).value, MonthOf(late)));
            es == db.log && !Rises(es)
  {
    SwappedLog(env, row, early, late);
    WholeChain(Swapped(env, row, early, late).log, ChainKey(env.uuid(row.teamId).value, MonthOf(late)));
  }

  /** On that ledger, verification without the re-sort would report a break; with it, it does not. */
  lemma ResortNeeded(env: Env, row: InsertRow, early: Time, late: Time) returns (x: Bytes, y: Bytes)
    requires Reversed(env, row, early, late) && NoSeparator(env.uuid(row.teamId).value)
    ensures Run(env, SwappedSteps(row, early, late)) == Some(Swapped(env, row, early, late))
    ensures var db, teamId, m := Swapped(env, row, early, late), env.uuid(row.teamId).value, MonthOf(late);
            var rows, genesis := MonthHashed(db, teamId, m), GenesisHash(env.sha, teamId, m);
            && (Linked(env.sha, env.norm, genesis, rows) ==> Collision(env.sha, x, y))
            && Linked(env.sha, env.norm, genesis, Sort(IdKey, rows))
  {
    var db, teamId, m := Swapped(env, row, early, late), env.uuid(row.teamId).value, MonthOf(late);
    SwappedRuns(env, row, early, late);
    RunSound(env, SwappedSteps(row, early, late));
    SwappedChain(env, row, early, late);
    AllCleanTwo(env, db);
    x, y := UnsortedVerdict(env, db, teamId, m);
    ResortedLinks(env, db, teamId, m);
  }

  lemma AllCleanTwo(env: Env, db: Db)
    requires |db.log| == 2 && Clean(env, db.log[0]) && Clean(env, db.log[1])
    ensures AllClean(env, db.log)
  {
  }

  lemma ResortedLinks(env: Env, db: Db, teamId: Bytes, m: Month)
    requires Inv(env, db) && AllClean(env, Chain(db.log, ChainKey(teamId, m)))
    ensures Linked(env.sha, env.norm, GenesisHash(env.sha, teamId, m), Sort(IdKey, MonthHashed(db, teamId, m)))
  {
    assert ChainSound(env, db, ChainKey(teamId, m));
    ResortedRows(env, db, teamId, m);
    CleanLinked(env, GenesisHash(env.sha, teamId, m), Chain(db.log, ChainKey(teamId, m)));
  }
}
