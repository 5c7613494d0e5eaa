/** The ledger and its rollups together: which days come back for recomputation, and which mistakes do not. A
    rollup pass reads the ledger at one moment and stores its totals at a later one. */
module UsageBooks {
  import opened Bytes
  import opened UsageLedger
  import opened UsageRollup

  datatype Rollup = Rollup(totals: Totals, computedAt: int)

  /** A pass under way: what it read, when, and what it makes of it. */
  datatype Draft = Draft(key: Key, totals: Totals, seen: seq<Interval>, readAt: int)

  /** The two tables and the pass under way. The last field is bookkeeping only: the reading each stored rollup
      came from. */
  datatype Books = Books(rows: seq<Interval>, rollups: map<Key, Rollup>, draft: Option<Draft>, basis: map<Key, Draft>)

  const EMPTY := Books([], map[], None, map[])

  datatype Act =
    | Observe(op: Op)
    | Read(key: Key)
    | Store

  datatype Moment = Moment(act: Act, now: int)

  function Listed(rows: seq<Interval>, key: Key): seq<Interval> {
    Overlapping(rows, key.app, key.day * DAY, (key.day + 1) * DAY)
  }

  function Advance(b: Books, act: Act, now: int): Books {
    match act
    case Observe(op) => b.(rows := Step(b.rows, op, now))
    case Read(key) =>
      if |Listed(b.rows, key)| > MAX_INTERVAL_ROWS then b.(draft := None)
      else b.(draft := Some(Draft(key, DayTotals(b.rows, key), b.rows, now)))
    case Store =>
      if b.draft.None? then b
      else
        var d := b.draft.value;
        b.(rollups := b.rollups[d.key := Rollup(d.totals, now)], basis := b.basis[d.key := d], draft := None)
  }

  function Play(b: Books, moments: seq<Moment>): Books
    decreases |moments|
  {
    if moments == [] then b else Play(Advance(b, moments[0].act, moments[0].now), moments[1..])
  }

  /** The clock moves on between statements, and has reached `end` after the last. */
  predicate Timeline(moments: seq<Moment>, start: int, end: int) {
    if moments == [] then start <= end
    else start < moments[0].now && Timeline(moments[1..], moments[0].now, end)
  }

  datatype RollupError = TooManyIntervals

  /** The rows the overlap query lists, in any order, integrate to what the whole ledger says of the day. */
  lemma ListedTotals(rows: seq<Interval>, key: Key, listed: seq<Interval>)
    requires multiset(listed) == multiset(Listed(rows, key))
    ensures Integral(listed, key.day * DAY, (key.day + 1) * DAY) == DayTotals(rows, key)
    ensures |listed| == |Listed(rows, key)|
  {
    IntegralPermutes(listed, Listed(rows, key), key.day * DAY, (key.day + 1) * DAY);
    OverlapSuffices(rows, key);
    assert |multiset(listed)| == |multiset(Listed(rows, key))|;
  }

  class Rollupper {
    const ledger: Ledger
    var rollups: map<Key, Rollup>

    constructor (ledger: Ledger)
      ensures this.ledger == ledger && rollups == map[]
    {
      this.ledger := ledger;
      rollups := map[];
    }

    /** Recomputes a day from scratch and replaces its row. The intervals may be listed in any order. */
    method RollupOne(key: Key, listed: seq<Interval>, now: int) returns (r: Result<(), RollupError>)
      requires multiset(listed) == multiset(Listed(ledger.rows, key))
      modifies this
      ensures r == if |listed| > MAX_INTERVAL_ROWS then Err(TooManyIntervals) else Ok(())
      ensures rollups == if r.Err? then old(rollups)
                         else old(rollups)[key := Rollup(DayTotals(ledger.rows, key), now)]
      ensures r.Ok? ==> ColumnsOf(rollups[key].totals, listed, key.day * DAY, (key.day + 1) * DAY)
    {
      if |listed| > MAX_INTERVAL_ROWS {
        return Err(TooManyIntervals);
      }
      ListedTotals(ledger.rows, key, listed);
      var totals := Integrate(listed, key.day * DAY, (key.day + 1) * DAY);
      rollups := rollups[key := Rollup(totals, now)];
      return Ok(());
    }
  }

  // ---- which days are pending ----

  /** When the ledger learned of a row's present shape. */
  function Mark(r: Interval): int {
    if r.closedAt.Some? then r.closedAt.value else r.created
  }

  predicate Spans(r: Interval, key: Key, now: int) {
    r.app == key.app && Day(r.started) <= key.day <= Day(if r.ended.Some? then r.ended.value else now)
  }

  /** A row makes a past day pending when no rollup of it is as recent as the row. Rows started before `floor`,
      fourteen months back, are past caring about. */
  predicate Pends(r: Interval, key: Key, rollups: map<Key, Rollup>, now: int, floor: int) {
    && Spans(r, key, now) && key.day < Day(now) && r.started >= floor
    && !(key in rollups && rollups[key].computedAt >= Mark(r))
  }

  ghost predicate Pending(b: Books, key: Key, now: int, floor: int) {
    exists i | 0 <= i < |b.rows| :: Pends(b.rows[i], key, b.rollups, now, floor)
  }

  // ---- how a row can have moved on since it was read ----

  predicate SameBasics(s: Interval, r: Interval) {
    && s.app == r.app && s.cpu == r.cpu && s.memory == r.memory && s.gpu == r.gpu
    && s.started == r.started && s.created == r.created
  }

  predicate SameShape(s: Interval, r: Interval) {
    SameBasics(s, r) && s.ended == r.ended && s.estimated == r.estimated
  }

  predicate Follows(s: Interval, r: Interval, readAt: int) {
    && Sane(s) && SameBasics(s, r) && s.created <= readAt
    && (SameShape(s, r) || Mark(r) > readAt || (r.ended.None? && s.ended.Some?))
  }

  predicate Newer(r: Interval, readAt: int) {
    r.created > readAt && Mark(r) > readAt
  }

  ghost predicate SnapshotOf(rows: seq<Interval>, seen: seq<Interval>, readAt: int) {
    && |seen| <= |rows|
    && (forall i | 0 <= i < |seen| :: Follows(seen[i], rows[i], readAt))
    && (forall i | |seen| <= i < |rows| :: Newer(rows[i], readAt))
  }

  ghost predicate DraftOk(b: Books, d: Draft, now: int) {
    && d.readAt <= now && d.totals == DayTotals(d.seen, d.key)
    && SnapshotOf(b.rows, d.seen, d.readAt)
  }

  ghost predicate RollupOk(b: Books, key: Key, now: int)
    requires key in b.rollups && key in b.basis
  {
    && DraftOk(b, b.basis[key], now) && b.basis[key].key == key
    && b.rollups[key].totals == b.basis[key].totals
    && b.basis[key].readAt <= b.rollups[key].computedAt <= now
  }

  ghost predicate BooksInv(b: Books, now: int) {
    && Inv(b.rows)
    && (forall i | 0 <= i < |b.rows| :: b.rows[i].created <= now && Mark(b.rows[i]) <= now)
    && (b.draft.Some? ==> DraftOk(b, b.draft.value, now))
    && b.rollups.Keys == b.basis.Keys
    && (forall key | key in b.rollups :: RollupOk(b, key, now))
  }

  lemma RowStepFollows(s: Interval, r: Interval, readAt: int, op: Op, now: int)
    requires Follows(s, r, readAt) && Sane(r) && readAt < now
    ensures Follows(s, RowStep(r, op, now), readAt)
  {
  }

  lemma StepSnapshot(rows: seq<Interval>, seen: seq<Interval>, readAt: int, op: Op, now: int)
    requires SnapshotOf(rows, seen, readAt) && Inv(rows) && readAt < now
    ensures SnapshotOf(Step(rows, op, now), seen, readAt)
  {
    var next := Step(rows, op, now);
    if next != rows && !op.Open? {
      forall i | 0 <= i < |seen|
        ensures Follows(seen[i], next[i], readAt)
      {
        RowStepFollows(seen[i], rows[i], readAt, op, now);
      }
    }
  }

  lemma StepTimes(rows: seq<Interval>, op: Op, before: int, now: int)
    requires forall i | 0 <= i < |rows| :: rows[i].created <= before && Mark(rows[i]) <= before
    requires before < now
    ensures forall i | 0 <= i < |Step(rows, op, now)| ::
              Step(rows, op, now)[i].created <= now && Mark(Step(rows, op, now)[i]) <= now
  {
  }

  lemma ObserveKeeps(b: Books, op: Op, before: int, now: int)
    requires BooksInv(b, before) && before < now
    ensures BooksInv(Advance(b, Observe(op), now), now)
  {
    var next := Advance(b, Observe(op), now);
    StepKeeps(b.rows, op, now);
    StepTimes(b.rows, op, before, now);
    if b.draft.Some? {
      StepSnapshot(b.rows, b.draft.value.seen, b.draft.value.readAt, op, now);
    }
    forall key | key in next.rollups
      ensures RollupOk(next, key, now)
    {
      assert RollupOk(b, key, before);
      StepSnapshot(b.rows, b.basis[key].seen, b.basis[key].readAt, op, now);
    }
  }

  lemma DraftLater(b: Books, next: Books, d: Draft, before: int, now: int)
    requires DraftOk(b, d, before) && next.rows == b.rows && before <= now
    ensures DraftOk(next, d, now)
  {
  }

  lemma ReadKeeps(b: Books, key: Key, before: int, now: int)
    requires BooksInv(b, before) && before < now
    ensures BooksInv(Advance(b, Read(key), now), now)
  {
    var next := Advance(b, Read(key), now);
    forall k | k in next.rollups
      ensures RollupOk(next, k, now)
    {
      assert RollupOk(b, k, before);
      DraftLater(b, next, b.basis[k], before, now);
    }
    assert SnapshotOf(b.rows, b.rows, now);
  }

  lemma StoreKeeps(b: Books, before: int, now: int)
    requires BooksInv(b, before) && before < now
    ensures BooksInv(Advance(b, Store, now), now)
  {
    var next := Advance(b, Store, now);
    if b.draft.Some? {
      DraftLater(b, next, b.draft.value, before, now);
    }
    forall k | k in next.rollups
      ensures k in next.basis && RollupOk(next, k, now)
    {
      if b.draft.None? || k != b.draft.value.key {
        assert RollupOk(b, k, before);
        DraftLater(b, next, b.basis[k], before, now);
      }
    }
  }

  lemma {:induction false} PlayKeeps(b: Books, moments: seq<Moment>, start: int, end: int)
    requires BooksInv(b, start) && Timeline(moments, start, end)
    ensures BooksInv(Play(b, moments), end)
    decreases |moments|
  {
    if moments == [] {
      forall key | key in b.rollups
        ensures RollupOk(b, key, end)
      {
        assert RollupOk(b, key, start);
      }
    } else {
      var m := moments[0];
      match m.act {
        case Observe(op) => ObserveKeeps(b, op, start, m.now);
        case Read(key) => ReadKeeps(b, key, start, m.now);
        case Store => StoreKeeps(b, start, m.now);
      }
      PlayKeeps(Advance(b, m.act, m.now), moments[1..], m.now, end);
    }
  }

  // ---- staleness ----

  function Seen(b: Books, key: Key): seq<Interval> {
    if key in b.basis then b.basis[key].seen else []
  }

  /** A row's part in a day is not what the day's rollup made of it. */
  predicate Changed(b: Books, key: Key, i: nat)
    requires i < |b.rows|
  {
    DayShare(b.rows[i], key) != SeenShare(Seen(b, key), i, key)
  }

  /** Closed, but with an end before the day it had been counted in. */
  predicate ClosedEarlier(b: Books, key: Key, i: nat)
    requires i < |b.rows|
  {
    b.rows[i].ended.Some? && Day(b.rows[i].ended.value) < key.day
  }

  /** Counted up to a guessed end, then reopened. */
  predicate ReopenedSince(b: Books, key: Key, i: nat)
    requires i < |b.rows|
  {
    b.rows[i].ended.None? && i < |Seen(b, key)| && Seen(b, key)[i].ended.Some?
  }

  /** Changed between the pass's reading and its storing. */
  predicate Raced(b: Books, key: Key, i: nat)
    requires i < |b.rows|
  {
    && key in b.basis && key in b.rollups
    && b.basis[key].readAt < Mark(b.rows[i]) <= b.rollups[key].computedAt
  }

  predicate Escapes(b: Books, key: Key, i: nat)
    requires i < |b.rows|
  {
    ClosedEarlier(b, key, i) || ReopenedSince(b, key, i) || Raced(b, key, i)
  }

  lemma NoSpanNoShare(r: Interval, key: Key, now: int)
    requires key.day < Day(now) && !Spans(r, key, now)
    ensures DayShare(r, key) == ZERO_TOTALS
  {
  }

  lemma ShapeShare(s: Interval, r: Interval, key: Key)
    requires SameShape(s, r)
    ensures DayShare(s, key) == DayShare(r, key)
  {
  }

  /** A row that no longer counts as its day's rollup counted it brings the day back, unless it escapes; and then
      it does not. */
  lemma ChangedPendsIff(b: Books, key: Key, i: nat, now: int, floor: int)
    requires BooksInv(b, now) && i < |b.rows| && key.day < Day(now) && b.rows[i].started >= floor
    requires Changed(b, key, i)
    ensures Pends(b.rows[i], key, b.rollups, now, floor) <==> !Escapes(b, key, i)
  {
    var r := b.rows[i];
    if !Spans(r, key, now) {
      NoSpanNoShare(r, key, now);
    }
    if key in b.rollups {
      assert RollupOk(b, key, now);
      if i < |Seen(b, key)| {
        assert Follows(Seen(b, key)[i], r, b.basis[key].readAt);
        SeenNotSpanned(Seen(b, key)[i], r, key, now);
        if SameShape(Seen(b, key)[i], r) {
          ShapeShare(Seen(b, key)[i], r, key);
        }
      } else {
        assert Newer(r, b.basis[key].readAt);
      }
    }
  }

  lemma SeenNotSpanned(s: Interval, r: Interval, key: Key, now: int)
    requires SameBasics(s, r) && key.day < Day(now)
    ensures !Spans(r, key, now) && DayShare(s, key) != ZERO_TOTALS ==>
              r.ended.Some? && Day(r.ended.value) < key.day
  {
    if !Spans(s, key, now) {
      NoSpanNoShare(s, key, now);
    }
  }

  function Stored(b: Books, key: Key): Totals {
    if key in b.rollups then b.rollups[key].totals else ZERO_TOTALS
  }

  lemma StoredIsSeen(b: Books, key: Key, now: int)
    requires BooksInv(b, now)
    ensures Stored(b, key) == DayTotals(Seen(b, key), key) && |Seen(b, key)| <= |b.rows|
  {
    assert key in b.rollups ==> RollupOk(b, key, now);
  }

  ghost predicate Recent(b: Books, floor: int) {
    forall i | 0 <= i < |b.rows| :: b.rows[i].started >= floor
  }

  ghost predicate NoneChanged(b: Books, key: Key) {
    forall i | 0 <= i < |b.rows| :: !Changed(b, key, i)
  }

  /** A day is settled when it is not pending and every row counts as its rollup counted it. */
  ghost predicate Settled(b: Books, key: Key, now: int, floor: int) {
    !Pending(b, key, now, floor) && NoneChanged(b, key)
  }

  lemma UnchangedExact(b: Books, key: Key, now: int)
    requires BooksInv(b, now) && NoneChanged(b, key)
    ensures Stored(b, key) == DayTotals(b.rows, key)
  {
    StoredIsSeen(b, key, now);
    forall i | 0 <= i < |b.rows|
      ensures DayShare(b.rows[i], key) == SeenShare(Seen(b, key), i, key)
    {
      assert !Changed(b, key, i);
    }
    SameShares(Seen(b, key), b.rows, key);
  }

  /** A past day that is not pending has a rollup that is exactly what the ledger says of the day, unless a row
      escaped. */
  lemma RollupExact(b: Books, key: Key, now: int, floor: int)
    requires BooksInv(b, now) && key.day < Day(now) && Recent(b, floor)
    requires !Pending(b, key, now, floor)
    ensures Stored(b, key) == DayTotals(b.rows, key) ||
            exists i | 0 <= i < |b.rows| :: Changed(b, key, i) && Escapes(b, key, i)
  {
    if NoneChanged(b, key) {
      UnchangedExact(b, key, now);
    } else {
      var i :| 0 <= i < |b.rows| && Changed(b, key, i);
      ChangedPendsIff(b, key, i, now, floor);
    }
  }

  /** Once the ledger has closed an interval at c, each past day it spans is pending until its rollup is stored at
      c or later; and a rollup that was also read at c or later counts the interval as it was closed. */
  lemma ClosedIsCounted(b: Books, key: Key, i: nat, now: int, floor: int)
    requires BooksInv(b, now) && i < |b.rows| && b.rows[i].closedAt.Some?
    requires Spans(b.rows[i], key, now) && key.day < Day(now) && b.rows[i].started >= floor
    ensures var c := b.rows[i].closedAt.value;
            || Pending(b, key, now, floor)
            || (&& key in b.rollups && key in b.basis && c <= b.rollups[key].computedAt
                && (c <= b.basis[key].readAt ==> !Changed(b, key, i)))
  {
    if !Pending(b, key, now, floor) {
      assert !Pends(b.rows[i], key, b.rollups, now, floor);
      assert RollupOk(b, key, now);
      var d := b.basis[key];
      assert i >= |d.seen| ==> Newer(b.rows[i], d.readAt);
      if b.rows[i].closedAt.value <= d.readAt {
        assert Follows(d.seen[i], b.rows[i], d.readAt);
        ShapeShare(d.seen[i], b.rows[i], key);
      }
    }
  }

  lemma {:induction false} PlayEvolves(b: Books, moments: seq<Moment>)
    requires Inv(b.rows)
    ensures RowsEvolve(b.rows, Play(b, moments).rows)
    decreases |moments|
  {
    if moments == [] {
    } else {
      var next := Advance(b, moments[0].act, moments[0].now);
      if moments[0].act.Observe? {
        StepKeeps(b.rows, moments[0].act.op, moments[0].now);
      }
      PlayEvolves(next, moments[1..]);
    }
  }

  /** The same, over whole runs: after any history, a close the cluster vouches for is counted, or pending, at
      every later time, whatever the observers and passes go on to do. */
  lemma CloseIsNeverLost(history: seq<Moment>, start: int, c: int, i: nat, future: seq<Moment>, now: int,
                         key: Key, floor: int)
    requires Timeline(history, start, c)
    requires var b := Play(EMPTY, history);
             i < |b.rows| && Authoritative(b.rows[i]) && b.rows[i].closedAt == Some(c)
    requires Timeline(future, c, now)
    requires var r := Play(EMPTY, history).rows[i];
             Spans(r, key, now) && key.day < Day(now) && r.started >= floor
    ensures var b := Play(Play(EMPTY, history), future);
            || Pending(b, key, now, floor)
            || (&& key in b.rollups && key in b.basis && c <= b.rollups[key].computedAt
                && (c <= b.basis[key].readAt ==> i < |b.rows| && !Changed(b, key, i)))
  {
    var b := Play(EMPTY, history);
    PlayKeeps(EMPTY, history, start, c);
    PlayKeeps(b, future, c, now);
    PlayEvolves(b, future);
    ClosedIsCounted(Play(b, future), key, i, now, floor);
  }

  /** If a single row escaped, the stored rollup is wrong, and nothing will bring the day back. */
  lemma EscapeIsWrong(b: Books, key: Key, i: nat, now: int)
    requires BooksInv(b, now) && i < |b.rows| && Changed(b, key, i)
    requires forall j | 0 <= j < |b.rows| && j != i :: !Changed(b, key, j)
    ensures Stored(b, key) != DayTotals(b.rows, key)
  {
    StoredIsSeen(b, key, now);
    forall j | 0 <= j < |b.rows| && j != i
      ensures DayShare(b.rows[j], key) == SeenShare(Seen(b, key), j, key)
    {
      assert !Changed(b, key, j);
    }
    OneDiffers(Seen(b, key), b.rows, key, i);
  }

  lemma {:induction false} OneDiffers(seen: seq<Interval>, rows: seq<Interval>, key: Key, i: nat)
    requires |seen| <= |rows| && i < |rows|
    requires forall j | 0 <= j < |rows| && j != i :: DayShare(rows[j], key) == SeenShare(seen, j, key)
    requires DayShare(rows[i], key) != SeenShare(seen, i, key)
    ensures DayTotals(seen, key) != DayTotals(rows, key)
    decreases |rows|
  {
    var n := |rows| - 1;
    var head := if |seen| == |rows| then seen[..n] else seen;
    SeenLast(seen, n, key);
    if i == n {
      SameShares(head, rows[..n], key);
      AddCancels(DayTotals(head, key), SeenShare(seen, n, key), DayTotals(rows[..n], key), DayShare(rows[n], key));
    } else {
      OneDiffers(head, rows[..n], key, i);
      AddCancels(DayTotals(head, key), SeenShare(seen, n, key), DayTotals(rows[..n], key), DayShare(rows[n], key));
    }
  }

  lemma AddCancels(a: Totals, x: Totals, b: Totals, y: Totals)
    ensures a == b ==> (Add(a, x) == Add(b, y) <==> x == y)
    ensures x == y ==> (Add(a, x) == Add(b, y) <==> a == b)
  {
  }

  lemma SeenLast(seen: seq<Interval>, n: nat, key: Key)
    requires |seen| <= n + 1
    ensures var head := if |seen| == n + 1 then seen[..n] else seen;
            && DayTotals(seen, key) == Add(DayTotals(head, key), SeenShare(seen, n, key))
            && forall j | 0 <= j < n :: SeenShare(head, j, key) == SeenShare(seen, j, key)
  {
  }

  // ---- exactly which writes lose a day ----

  lemma ObserveOne(b: Books, op: Op, now: int, i: nat)
    requires OnePerPod(b.rows) && !op.Open? && !op.Touch? && !Refused(b.rows, op, now)
    requires i < |b.rows| && Matches(b.rows[i], op)
    ensures var next := Advance(b, Observe(op), now);
            && |next.rows| == |b.rows| && next.rows[i] == Write(b.rows[i], op, now)
            && forall j | 0 <= j < |b.rows| && j != i :: next.rows[j] == b.rows[j]
  {
    assert forall j | 0 <= j < |b.rows| && j != i :: b.rows[j].pod != b.rows[i].pod;
  }

  /** After one row of a settled day is rewritten, the day is pending or settled again if and only if the row
      pends or counts as before. */
  lemma RewriteLoses(b: Books, op: Op, before: int, now: int, i: nat, key: Key, floor: int, floor': int)
    requires BooksInv(b, before) && before < now && floor <= floor'
    requires !op.Open? && !op.Touch? && !Refused(b.rows, op, now) && i < |b.rows| && Matches(b.rows[i], op)
    requires key.day < Day(before) && Settled(b, key, before, floor)
    ensures var next := Advance(b, Observe(op), now);
            |next.rows| == |b.rows| && next.rows[i] == Write(b.rows[i], op, now) &&
            ((Pending(next, key, now, floor') || NoneChanged(next, key)) <==>
             (Pends(next.rows[i], key, b.rollups, now, floor') ||
              DayShare(next.rows[i], key) == DayShare(b.rows[i], key)))
  {
    var next := Advance(b, Observe(op), now);
    ObserveOne(b, op, now, i);
    forall j | 0 <= j < |b.rows| && j != i
      ensures !Pends(next.rows[j], key, next.rollups, now, floor') && !Changed(next, key, j)
    {
      assert !Pends(b.rows[j], key, b.rollups, before, floor) && !Changed(b, key, j);
      SpansStill(b.rows[j], key, before, now);
    }
    assert !Changed(b, key, i);
    assert NoneChanged(next, key) <==> !Changed(next, key, i);
  }

  lemma SpansStill(r: Interval, key: Key, before: int, now: int)
    requires before <= now && key.day < Day(before)
    ensures Spans(r, key, now) <==> Spans(r, key, before)
  {
  }

  lemma ClosedRow(s: Interval, op: Op, key: Key, rollups: map<Key, Rollup>, now: int, floor: int)
    requires op.Close? && Matches(s, op) && s.started >= floor && key.day < Day(now)
    requires key in rollups ==> rollups[key].computedAt < now
    ensures var r := Write(s, op, now);
            Pends(r, key, rollups, now, floor) || DayShare(r, key) == DayShare(s, key) <==>
            !(Day(op.end) < key.day && DayShare(s, key) != ZERO_TOTALS)
  {
    var r := Write(s, op, now);
    if !Spans(r, key, now) {
      NoSpanNoShare(r, key, now);
      SeenNotSpanned(s, r, key, now);
    }
  }

  /** A close loses a settled past day exactly when it ends, before that day, an interval the day had counted. */
  lemma CloseLoses(b: Books, op: Op, before: int, now: int, i: nat, key: Key, floor: int, floor': int)
    requires BooksInv(b, before) && before < now && floor <= floor'
    requires op.Close? && !Refused(b.rows, op, now) && i < |b.rows| && Matches(b.rows[i], op)
    requires key.day < Day(before) && Settled(b, key, before, floor) && b.rows[i].started >= floor'
    ensures var next := Advance(b, Observe(op), now);
            Pending(next, key, now, floor') || NoneChanged(next, key) <==>
            !(Day(op.end) < key.day && DayShare(b.rows[i], key) != ZERO_TOTALS)
  {
    RewriteLoses(b, op, before, now, i, key, floor, floor');
    assert key in b.rollups ==> RollupOk(b, key, before);
    ClosedRow(b.rows[i], op, key, b.rollups, now, floor');
  }

  /** A reopen loses a settled past day exactly when it changes the row's part in a rollup that knew the row. */
  lemma ReopenLoses(b: Books, op: Op, before: int, now: int, i: nat, key: Key, floor: int, floor': int)
    requires BooksInv(b, before) && before < now && floor <= floor'
    requires op.Reopen? && !Refused(b.rows, op, now) && i < |b.rows| && Matches(b.rows[i], op)
    requires key.day < Day(before) && Settled(b, key, before, floor) && b.rows[i].started >= floor'
    ensures var next := Advance(b, Observe(op), now); var r := b.rows[i];
            Pending(next, key, now, floor') || NoneChanged(next, key) <==>
            !(key in b.rollups && r.created <= b.rollups[key].computedAt
              && DayShare(r.(ended := None, estimated := false), key) != DayShare(r, key))
  {
    RewriteLoses(b, op, before, now, i, key, floor, floor');
    var r := Write(b.rows[i], op, now);
    ShapeShare(b.rows[i].(ended := None, estimated := false), r, key);
    if !Spans(r, key, now) {
      NoSpanNoShare(r, key, now);
      SeenNotSpanned(b.rows[i], r, key, now);
    }
  }

  /** A pass that nothing interrupts settles its day. */
  lemma PassSettles(b: Books, key: Key, before: int, now: int, later: int, floor: int)
    requires BooksInv(b, before) && before < now < later
    requires |Listed(b.rows, key)| <= MAX_INTERVAL_ROWS
    ensures Settled(Advance(Advance(b, Read(key), now), Store, later), key, later, floor)
  {
  }

  /** A store leaves its day pending or exact if and only if every row still counts as the pass had read it; and
      never pending. */
  lemma StoreLoses(b: Books, before: int, now: int, floor: int)
    requires BooksInv(b, before) && before < now && b.draft.Some?
    ensures var next := Advance(b, Store, now); var d := b.draft.value;
            && !Pending(next, d.key, now, floor)
            && (Pending(next, d.key, now, floor) || NoneChanged(next, d.key) <==>
                forall i | 0 <= i < |b.rows| :: DayShare(b.rows[i], d.key) == SeenShare(d.seen, i, d.key))
            && (NoneChanged(next, d.key) ==> Stored(next, d.key) == DayTotals(b.rows, d.key))
  {
    var next, d := Advance(b, Store, now), b.draft.value;
    forall i | 0 <= i < |b.rows|
      ensures !Pends(next.rows[i], d.key, next.rollups, now, floor)
      ensures Changed(next, d.key, i) <==> DayShare(b.rows[i], d.key) != SeenShare(d.seen, i, d.key)
    {
      assert Mark(b.rows[i]) <= before;
    }
    StoreKeeps(b, before, now);
    if NoneChanged(next, d.key) {
      assert forall i | 0 <= i < |b.rows| :: !Changed(next, d.key, i);
      UnchangedExact(next, d.key, now);
    }
  }

  // ---- runs that lose a day, one for each escape ----

  const POD: string := "pod"
  const APP: App := App("team", "app")

  function PodRow(ended: Option<int>, lastSeen: int, estimated: bool, reason: Option<Reason>, closedAt: Option<int>)
    : Interval
  {
    Interval(POD, APP, 1, 1, 0, 0, ended, lastSeen, estimated, reason, 1, closedAt)
  }

  const OPENED: Moment := Moment(Observe(Open(POD, APP, 1, 1, 0, 0, 0)), 1)

  function ClosePod(end: int, estimated: bool, reason: Reason): Act {
    Observe(Close(POD, end, estimated, reason))
  }

  lemma PlayTwice(b: Books, m: Moment, m': Moment, rest: seq<Moment>)
    ensures Play(b, [m, m'] + rest) == Play(Advance(Advance(b, m.act, m.now), m'.act, m'.now), rest)
  {
    assert ([m, m'] + rest)[1..] == [m'] + rest;
    assert ([m'] + rest)[1..] == rest;
  }

  lemma FourMoments(a: Moment, b: Moment, c: Moment, d: Moment, start: int)
    requires start < a.now < b.now < c.now < d.now
    ensures [a, b, c, d] == [a, b] + ([c, d] + [])
    ensures Timeline([a, b, c, d], start, d.now)
  {
    assert [a, b, c, d][1..] == [b, c, d] && [b, c, d][1..] == [c, d] && [c, d][1..] == [d] && [d][1..] == [];
    assert Timeline([d], c.now, d.now);
    assert Timeline([c, d], b.now, d.now);
  }

  lemma FiveMoments(a: Moment, b: Moment, c: Moment, d: Moment, e: Moment, start: int)
    requires start < a.now < b.now < c.now < d.now < e.now
    ensures [a, b, c, d, e] == [a, b] + ([c, d] + [e])
    ensures Timeline([a, b, c, d, e], start, e.now)
  {
    assert [a, b, c, d, e][1..] == [b, c, d, e];
    FourMoments(b, c, d, e, a.now);
  }

  lemma PlayOnce(b: Books, m: Moment)
    ensures Play(b, [m]) == Advance(b, m.act, m.now)
  {
    assert [m][1..] == [];
  }

  lemma {:induction false} ListedShort(rows: seq<Interval>, app: App, from: int, to: int)
    ensures |Overlapping(rows, app, from, to)| <= |rows|
  {
    if rows == [] {
    } else {
      ListedShort(rows[..|rows| - 1], app, from, to);
    }
  }

  /** One row in the ledger: when its part in the day has changed, the stored total is wrong. */
  lemma OneRowLost(b: Books, key: Key, now: int, floor: int)
    requires BooksInv(b, now) && |b.rows| == 1
    requires !(Pending(b, key, now, floor) || NoneChanged(b, key))
    ensures !Pending(b, key, now, floor) && Stored(b, key) != DayTotals(b.rows, key)
  {
    EscapeIsWrong(b, key, 0, now);
  }

  function Unrolled(row: Interval): Books {
    Books([row], map[], None, map[])
  }

  lemma UnrolledInv(row: Interval, key: Key, now: int)
    requires Sane(row) && row.created <= now && Mark(row) <= now
    ensures BooksInv(Unrolled(row), now) && |Listed([row], key)| <= MAX_INTERVAL_ROWS
  {
    ListedShort([row], key.app, key.day * DAY, (key.day + 1) * DAY);
  }

  function Passed(row: Interval, key: Key, now: int): Books {
    Advance(Advance(Unrolled(row), Read(key), now), Store, now + 1)
  }

  lemma PassedInv(row: Interval, key: Key, before: int, now: int)
    requires Sane(row) && row.created <= before && Mark(row) <= before && before < now
    ensures BooksInv(Passed(row, key, now), now + 1)
  {
    UnrolledInv(row, key, before);
    ReadKeeps(Unrolled(row), key, before, now);
    StoreKeeps(Advance(Unrolled(row), Read(key), now), now, now + 1);
  }

  /** One row's books after a pass. */
  lemma PassOver(row: Interval, key: Key, before: int, now: int) returns (b: Books)
    requires Sane(row) && row.created <= before && Mark(row) <= before && before < now
    ensures b == Advance(Advance(Unrolled(row), Read(key), now), Store, now + 1)
    ensures b.rows == [row] && key in b.rollups && b.rollups[key].computedAt == now + 1
    ensures BooksInv(b, now + 1) && Settled(b, key, now + 1, 0)
  {
    UnrolledInv(row, key, before);
    PassSettles(Unrolled(row), key, before, now, now + 1, 0);
    PassedInv(row, key, before, now);
    b := Passed(row, key, now);
  }

  lemma OpenPod()
    ensures Advance(EMPTY, OPENED.act, 1) == Books([PodRow(None, 0, false, None, None)], map[], None, map[])
  {
  }

  const DAY_ONE: Key := Key(APP, 1)

  lemma LateClose(b: Books)
    requires b.rows == [PodRow(None, 0, false, None, None)]
    requires BooksInv(b, 2 * DAY + 1) && Settled(b, DAY_ONE, 2 * DAY + 1, 0)
    ensures var now := 2 * DAY + 2; var next := Advance(b, ClosePod(10 * SECOND, false, Terminated), now);
            !Pending(next, DAY_ONE, now, 0) && Stored(next, DAY_ONE) != DayTotals(next.rows, DAY_ONE)
  {
    FullDay(b.rows[0]);
    OneRowClosed(b, Close(POD, 10 * SECOND, false, Terminated), 2 * DAY + 1, 2 * DAY + 2, DAY_ONE);
  }

  lemma OneRowClosed(b: Books, op: Op, before: int, now: int, key: Key)
    requires BooksInv(b, before) && before < now && |b.rows| == 1 && b.rows[0].started >= 0
    requires op.Close? && Matches(b.rows[0], op) && Checks(Write(b.rows[0], op, now))
    requires key.day < Day(before) && Settled(b, key, before, 0)
    requires Day(op.end) < key.day && DayShare(b.rows[0], key) != ZERO_TOTALS
    ensures var next := Advance(b, Observe(op), now);
            !Pending(next, key, now, 0) && Stored(next, key) != DayTotals(next.rows, key)
  {
    ObserveKeeps(b, op, before, now);
    CloseLoses(b, op, before, now, 0, key, 0, 0);
    ObserveOne(b, op, now, 0);
    OneRowLost(Advance(b, Observe(op), now), key, now, 0);
  }

  lemma FullDay(r: Interval)
    requires r == PodRow(None, 0, false, None, None)
    ensures DayShare(r, DAY_ONE).pods == 86_400
  {
  }

  /** The pod ends on day 0; the ledger hears of it on day 2, when day 1 has been rolled up in full. */
  lemma LateCloseRun()
    ensures var now := 2 * DAY + 2;
            var ms := [OPENED, Moment(Read(DAY_ONE), 2 * DAY), Moment(Store, 2 * DAY + 1),
                       Moment(ClosePod(10 * SECOND, false, Terminated), now)];
            var b := Play(EMPTY, ms);
            Timeline(ms, 0, now) && !Pending(b, DAY_ONE, now, 0) && Stored(b, DAY_ONE) != DayTotals(b.rows, DAY_ONE)
  {
    var row := PodRow(None, 0, false, None, None);
    var close := Moment(ClosePod(10 * SECOND, false, Terminated), 2 * DAY + 2);
    var store := Moment(Store, 2 * DAY + 1);
    var read := Moment(Read(DAY_ONE), 2 * DAY);
    FourMoments(OPENED, read, store, close, 0);
    PlayTwice(EMPTY, OPENED, read, [store, close] + []);
    OpenPod();
    var b0 := Books([row], map[], None, map[]);
    var b := PassOver(row, DAY_ONE, 1, 2 * DAY);
    PlayTwice(Advance(b0, Read(DAY_ONE), 2 * DAY), store, close, []);
    LateClose(b);
  }

  const DAY_ZERO: Key := Key(APP, 0)

  lemma OneRowReopened(b: Books, op: Op, before: int, now: int, key: Key)
    requires BooksInv(b, before) && before < now && |b.rows| == 1 && b.rows[0].started >= 0
    requires op.Reopen? && Matches(b.rows[0], op) && Checks(Write(b.rows[0], op, now))
    requires key.day < Day(before) && Settled(b, key, before, 0)
    requires key in b.rollups && b.rows[0].created <= b.rollups[key].computedAt
    requires DayShare(b.rows[0].(ended := None, estimated := false), key) != DayShare(b.rows[0], key)
    ensures var next := Advance(b, Observe(op), now);
            !Pending(next, key, now, 0) && Stored(next, key) != DayTotals(next.rows, key)
  {
    ObserveKeeps(b, op, before, now);
    ReopenLoses(b, op, before, now, 0, key, 0, 0);
    ObserveOne(b, op, now, 0);
    OneRowLost(Advance(b, Observe(op), now), key, now, 0);
  }

  const GUESSED: Interval :=
    PodRow(Some(10 * SECOND), 10 * SECOND, true, Some(ReconciledMissing), Some(11 * SECOND))

  lemma GuessPod()
    ensures Advance(Books([PodRow(None, 0, false, None, None)], map[], None, map[]),
                    ClosePod(10 * SECOND, true, ReconciledMissing), 11 * SECOND)
            == Books([GUESSED], map[], None, map[])
  {
  }

  lemma PartDay(r: Interval, s: Interval)
    requires r == PodRow(None, r.lastSeen, false, None, None)
    requires s == PodRow(Some(10 * SECOND), s.lastSeen, s.estimated, s.reason, s.closedAt)
    ensures DayShare(r, DAY_ZERO).pods == 86_400 && DayShare(s, DAY_ZERO).pods == 10
  {
  }

  lemma ReopenLate(b: Books)
    requires b.rows == [GUESSED] && BooksInv(b, DAY + 1) && Settled(b, DAY_ZERO, DAY + 1, 0)
    requires DAY_ZERO in b.rollups && b.rollups[DAY_ZERO].computedAt == DAY + 1
    ensures var now := DAY + 2; var next := Advance(b, Observe(Reopen(POD, DAY)), now);
            !Pending(next, DAY_ZERO, now, 0) && Stored(next, DAY_ZERO) != DayTotals(next.rows, DAY_ZERO)
  {
    PartDay(GUESSED.(ended := None, estimated := false, reason := None, closedAt := None), GUESSED);
    ShapeShare(GUESSED.(ended := None, estimated := false, reason := None, closedAt := None),
               GUESSED.(ended := None, estimated := false), DAY_ZERO);
    OneRowReopened(b, Reopen(POD, DAY), DAY + 1, DAY + 2, DAY_ZERO);
  }

  /** The pod is closed on a guess, its day rolled up, and then it is seen alive again: the day keeps the guess
      until the pod's real end. */
  lemma ReopenRun()
    ensures var now := DAY + 2;
            var ms := [OPENED, Moment(ClosePod(10 * SECOND, true, ReconciledMissing), 11 * SECOND),
                       Moment(Read(DAY_ZERO), DAY), Moment(Store, DAY + 1), Moment(Observe(Reopen(POD, DAY)), now)];
            var b := Play(EMPTY, ms);
            Timeline(ms, 0, now) && !Pending(b, DAY_ZERO, now, 0) && Stored(b, DAY_ZERO) != DayTotals(b.rows, DAY_ZERO)
  {
    var guess := Moment(ClosePod(10 * SECOND, true, ReconciledMissing), 11 * SECOND);
    var read, store := Moment(Read(DAY_ZERO), DAY), Moment(Store, DAY + 1);
    var reopen := Moment(Observe(Reopen(POD, DAY)), DAY + 2);
    FiveMoments(OPENED, guess, read, store, reopen, 0);
    PlayTwice(EMPTY, OPENED, guess, [read, store] + [reopen]);
    OpenPod();
    GuessPod();
    var b := PassOver(GUESSED, DAY_ZERO, 11 * SECOND, DAY);
    PlayTwice(Books([GUESSED], map[], None, map[]), read, store, [reopen]);
    PlayOnce(b, reopen);
    ReopenLate(b);
  }

  const ENDED: Interval :=
    PodRow(Some(10 * SECOND), 10 * SECOND, false, Some(Terminated), Some(DAY + 1))

  lemma ReadPod() returns (b: Books)
    ensures b == Advance(Books([PodRow(None, 0, false, None, None)], map[], None, map[]), Read(DAY_ZERO), DAY)
    ensures b.rows == [PodRow(None, 0, false, None, None)] && BooksInv(b, DAY) && b.rollups == map[]
    ensures b.draft.Some? && b.draft.value.key == DAY_ZERO && b.draft.value.seen == b.rows
  {
    var rows := [PodRow(None, 0, false, None, None)];
    ListedShort(rows, APP, 0, DAY);
    ReadKeeps(Books(rows, map[], None, map[]), DAY_ZERO, 1, DAY);
    b := Advance(Books(rows, map[], None, map[]), Read(DAY_ZERO), DAY);
  }

  lemma CloseDuring(b: Books)
    requires b.rows == [PodRow(None, 0, false, None, None)] && BooksInv(b, DAY) && b.rollups == map[]
    requires b.draft.Some? && b.draft.value.key == DAY_ZERO && b.draft.value.seen == b.rows
    ensures var now := DAY + 2;
            var next := Advance(Advance(b, ClosePod(10 * SECOND, false, Terminated), DAY + 1), Store, now);
            !Pending(next, DAY_ZERO, now, 0) && Stored(next, DAY_ZERO) != DayTotals(next.rows, DAY_ZERO)
  {
    var op := Close(POD, 10 * SECOND, false, Terminated);
    var mid := Advance(b, Observe(op), DAY + 1);
    ObserveOne(b, op, DAY + 1, 0);
    assert mid.rows == [ENDED];
    ObserveKeeps(b, op, DAY, DAY + 1);
    StoreKeeps(mid, DAY + 1, DAY + 2);
    PartDay(b.rows[0], ENDED);
    EscapeIsWrong(Advance(mid, Store, DAY + 2), DAY_ZERO, 0, DAY + 2);
  }

  /** The pod's close arrives after the pass has read the day and before it stores it. */
  lemma RaceRun()
    ensures var now := DAY + 2;
            var ms := [OPENED, Moment(Read(DAY_ZERO), DAY),
                       Moment(ClosePod(10 * SECOND, false, Terminated), DAY + 1), Moment(Store, now)];
            var b := Play(EMPTY, ms);
            Timeline(ms, 0, now) && !Pending(b, DAY_ZERO, now, 0) && Stored(b, DAY_ZERO) != DayTotals(b.rows, DAY_ZERO)
  {
    var read, store := Moment(Read(DAY_ZERO), DAY), Moment(Store, DAY + 2);
    var close := Moment(ClosePod(10 * SECOND, false, Terminated), DAY + 1);
    FourMoments(OPENED, read, close, store, 0);
    PlayTwice(EMPTY, OPENED, read, [close, store] + []);
    OpenPod();
    var b := ReadPod();
    PlayTwice(b, close, store, []);
    CloseDuring(b);
  }
}
