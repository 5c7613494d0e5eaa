/** Integrating the ledger into daily rollups. Times are nanoseconds since the epoch; a UTC day is its number. */
module UsageRollup {
  import opened UsageLedger

  const SECOND: int := 1_000_000_000
  const DAY: int := 86_400 * SECOND

  /** A rollup refuses to integrate more intervals than this. */
  const MAX_INTERVAL_ROWS: int := 10_000

  function Day(t: int): int {
    t / DAY
  }

  datatype Totals = Totals(cpu: int, memory: int, gpu: int, pods: int, estimated: int, count: int)

  const ZERO_TOTALS := Totals(0, 0, 0, 0, 0, 0)

  function Add(a: Totals, b: Totals): Totals {
    Totals(a.cpu + b.cpu, a.memory + b.memory, a.gpu + b.gpu, a.pods + b.pods, a.estimated + b.estimated,
           a.count + b.count)
  }

  function Max(a: int, b: int): int {
    if a < b then b else a
  }

  function Min(a: int, b: int): int {
    if a < b then a else b
  }

  /** How much of [from, to) an interval covers; an open one has no end. */
  function Length(r: Interval, from: int, to: int): int {
    Max(0, Min(if r.ended.Some? then r.ended.value else to, to) - Max(r.started, from))
  }

  /** The whole seconds of an interval that lie in [from, to); an open one runs to the end of the window. */
  function Seconds(r: Interval, from: int, to: int): (s: int)
    ensures 0 <= s * 1_000_000_000 <= Length(r, from, to) < (s + 1) * 1_000_000_000
  {
    var start := if r.started < from then from else r.started;
    var end := if r.ended.Some? && r.ended.value < to then r.ended.value else to;
    if end <= start then 0 else (end - start) / SECOND
  }

  function Share(r: Interval, from: int, to: int): Totals {
    var s := Seconds(r, from, to);
    if s == 0 then ZERO_TOTALS
    else Totals(r.cpu * s, r.memory * s, r.gpu * s, s, if r.estimated then s else 0, 1)
  }

  /** What a list of intervals adds up to, given what each one adds. */
  function Sum(rows: seq<Interval>, share: Interval -> Totals): Totals {
    if rows == [] then ZERO_TOTALS
    else Add(Sum(rows[..|rows| - 1], share), share(rows[|rows| - 1]))
  }

  function ShareOf(from: int, to: int): Interval -> Totals {
    r => Share(r, from, to)
  }

  function Integral(rows: seq<Interval>, from: int, to: int): Totals {
    Sum(rows, ShareOf(from, to))
  }

  function Extended(t: Totals, r: Interval, s: int): (next: Totals)
    ensures forall from, to | Seconds(r, from, to) == s != 0 :: next == Add(t, Share(r, from, to))
  {
    Totals(t.cpu + r.cpu * s, t.memory + r.memory * s, t.gpu + r.gpu * s, t.pods + s,
           t.estimated + (if r.estimated then s else 0), t.count + 1)
  }

  /** The sum of what each interval allocates times the seconds it does, by column. */
  datatype Column = Cpu | Memory | Gpu | Pods | Estimated | Count

  function Weight(column: Column, r: Interval): int {
    match column
    case Cpu => r.cpu
    case Memory => r.memory
    case Gpu => r.gpu
    case Pods => 1
    case Estimated => if r.estimated then 1 else 0
    case Count => 0
  }

  function Weighted(rows: seq<Interval>, column: Column, from: int, to: int): int {
    if rows == [] then 0
    else
      var r := rows[|rows| - 1];
      Weighted(rows[..|rows| - 1], column, from, to)
      + if column.Count? then (if Seconds(r, from, to) > 0 then 1 else 0) else Weight(column, r) * Seconds(r, from, to)
  }

  ghost predicate ColumnsOf(totals: Totals, rows: seq<Interval>, from: int, to: int) {
    && totals.cpu == Weighted(rows, Cpu, from, to) && totals.memory == Weighted(rows, Memory, from, to)
    && totals.gpu == Weighted(rows, Gpu, from, to) && totals.pods == Weighted(rows, Pods, from, to)
    && totals.estimated == Weighted(rows, Estimated, from, to) && totals.count == Weighted(rows, Count, from, to)
  }

  lemma ShareColumns(r: Interval, from: int, to: int)
    ensures ColumnsOf(Share(r, from, to), [r], from, to)
  {
    assert [r][..0] == [];
    assert forall column :: Weighted([], column, from, to) == 0;
  }

  lemma {:induction false} IntegralColumns(rows: seq<Interval>, from: int, to: int)
    ensures ColumnsOf(Integral(rows, from, to), rows, from, to)
  {
    if rows == [] {
    } else {
      IntegralColumns(rows[..|rows| - 1], from, to);
      ShareColumns(rows[|rows| - 1], from, to);
      LastColumns(rows, from, to);
    }
  }

  lemma LastColumns(rows: seq<Interval>, from: int, to: int)
    requires rows != []
    ensures forall column ::
              Weighted(rows, column, from, to)
              == Weighted(rows[..|rows| - 1], column, from, to) + Weighted([rows[|rows| - 1]], column, from, to)
  {
    assert [rows[|rows| - 1]][..0] == [];
    assert forall column :: Weighted([], column, from, to) == 0;
  }

  /** The totals of intervals over a window: each one adds what it allocates times its whole seconds there. */
  method Integrate(intervals: seq<Interval>, from: int, to: int) returns (totals: Totals)
    ensures totals == Integral(intervals, from, to)
    ensures ColumnsOf(totals, intervals, from, to)
    ensures |intervals| == 1 && intervals[0].ended.Some? ==>
              var r := intervals[0];
              var s := (r.ended.value - r.started) / 1_000_000_000;
              from <= r.started <= r.ended.value <= to && s > 0 ==>
                totals == Totals(r.cpu * s, r.memory * s, r.gpu * s, s, if r.estimated then s else 0, 1)
  {
    totals := ZERO_TOTALS;
    for i := 0 to |intervals|
      invariant totals == Sum(intervals[..i], ShareOf(from, to))
    {
      var r := intervals[i];
      SumNext(intervals, i, ShareOf(from, to));
      var seconds := SecondsWithin(r, from, to);
      if seconds == 0 {
        continue;
      }
      totals := Extended(totals, r, seconds);
    }
    assert intervals[..|intervals|] == intervals;
    IntegralColumns(intervals, from, to);
    if |intervals| == 1 && intervals[0].ended.Some? && from <= intervals[0].started <= intervals[0].ended.value <= to {
      IntegralOfOne(intervals, from, to);
    }
  }

  method SecondsWithin(r: Interval, from: int, to: int) returns (seconds: int)
    ensures seconds == Seconds(r, from, to)
  {
    var start, end := r.started, to;
    if start < from {
      start := from;
    }
    if r.ended.Some? && r.ended.value < end {
      end := r.ended.value;
    }
    if end <= start {
      return 0;
    }
    return (end - start) / SECOND;
  }

  lemma IntegralOfOne(intervals: seq<Interval>, from: int, to: int)
    requires |intervals| == 1 && intervals[0].ended.Some?
             && from <= intervals[0].started <= intervals[0].ended.value <= to
    ensures var r := intervals[0];
            var s := (r.ended.value - r.started) / 1_000_000_000;
            s > 0 ==> Integral(intervals, from, to)
                      == Totals(r.cpu * s, r.memory * s, r.gpu * s, s, if r.estimated then s else 0, 1)
  {
    SumOne(intervals[0], ShareOf(from, to));
    assert intervals == [intervals[0]];
  }

  lemma SumNext(rows: seq<Interval>, i: nat, share: Interval -> Totals)
    requires i < |rows|
    ensures Sum(rows[..i + 1], share) == Add(Sum(rows[..i], share), share(rows[i]))
  {
    assert rows[..i + 1][..i] == rows[..i];
  }

  // ---- laws of integration ----

  /** What the rows' cpu comes to depends on no other allocation, nor any other total on the cpu; and so for memory
      and gpu. */
  lemma OwnColumns(a: seq<Interval>, b: seq<Interval>, from: int, to: int)
    requires |a| == |b|
    ensures (forall i | 0 <= i < |a| :: b[i] == a[i].(cpu := b[i].cpu)) ==>
              Integral(b, from, to) == Integral(a, from, to).(cpu := Integral(b, from, to).cpu)
    ensures (forall i | 0 <= i < |a| :: b[i] == a[i].(memory := b[i].memory)) ==>
              Integral(b, from, to) == Integral(a, from, to).(memory := Integral(b, from, to).memory)
    ensures (forall i | 0 <= i < |a| :: b[i] == a[i].(gpu := b[i].gpu)) ==>
              Integral(b, from, to) == Integral(a, from, to).(gpu := Integral(b, from, to).gpu)
  {
    IntegralColumns(a, from, to);
    IntegralColumns(b, from, to);
    forall column
      ensures SameWeights(a, b, column) ==> Weighted(a, column, from, to) == Weighted(b, column, from, to)
    {
      if SameWeights(a, b, column) {
        SameColumn(a, b, column, from, to);
      }
    }
  }

  predicate SameWeights(a: seq<Interval>, b: seq<Interval>, column: Column) {
    && |a| == |b|
    && forall i | 0 <= i < |a| ::
         Weight(column, a[i]) == Weight(column, b[i]) && a[i].started == b[i].started && a[i].ended == b[i].ended
  }

  lemma {:induction false} SameColumn(a: seq<Interval>, b: seq<Interval>, column: Column, from: int, to: int)
    requires SameWeights(a, b, column)
    ensures Weighted(a, column, from, to) == Weighted(b, column, from, to)
  {
    if a == [] {
    } else {
      SameColumn(a[..|a| - 1], b[..|b| - 1], column, from, to);
    }
  }

  lemma {:induction false} SumConcat(a: seq<Interval>, b: seq<Interval>, share: Interval -> Totals)
    ensures Sum(a + b, share) == Add(Sum(a, share), Sum(b, share))
  {
    if b == [] {
      assert a + b == a;
    } else {
      var front := b[..|b| - 1];
      assert (a + b)[..|a + b| - 1] == a + front;
      SumConcat(a, front, share);
    }
  }

  lemma SumOne(x: Interval, share: Interval -> Totals)
    ensures Sum([x], share) == share(x)
  {
    assert [x][..0] == [];
  }

  lemma SplitAt(b: seq<Interval>, j: nat)
    requires j < |b|
    ensures b == b[..j] + ([b[j]] + b[j + 1..])
    ensures multiset(b[..j] + b[j + 1..]) == multiset(b) - multiset{b[j]}
  {
    assert b == b[..j] + ([b[j]] + b[j + 1..]);
  }

  lemma SumMiddle(pre: seq<Interval>, x: Interval, post: seq<Interval>, share: Interval -> Totals)
    ensures Sum(pre + [x] + post, share) == Add(Sum(pre + post, share), share(x))
  {
    SumConcat(pre + [x], post, share);
    SumConcat(pre, post, share);
    SumConcat(pre, [x], share);
    SumOne(x, share);
  }

  lemma SumWithout(b: seq<Interval>, j: nat, share: Interval -> Totals)
    requires j < |b|
    ensures Sum(b, share) == Add(Sum(b[..j] + b[j + 1..], share), share(b[j]))
  {
    SumMiddle(b[..j], b[j], b[j + 1..], share);
    assert b == b[..j] + [b[j]] + b[j + 1..];
  }

  lemma {:induction false} SumPermutes(a: seq<Interval>, b: seq<Interval>, share: Interval -> Totals)
    requires multiset(a) == multiset(b)
    ensures Sum(a, share) == Sum(b, share)
    decreases |a|
  {
    if a == [] {
      assert |multiset(b)| == 0;
    } else {
      var n := |a| - 1;
      var x := a[n];
      SplitAt(a, n);
      assert a[..n] + a[n + 1..] == a[..n];
      assert x in multiset(b);
      var j :| 0 <= j < |b| && b[j] == x;
      SplitAt(b, j);
      SumPermutes(a[..n], b[..j] + b[j + 1..], share);
      SumWithout(b, j, share);
    }
  }

  /** The order in which intervals are listed does not matter. */
  lemma IntegralPermutes(a: seq<Interval>, b: seq<Interval>, from: int, to: int)
    requires multiset(a) == multiset(b)
    ensures Integral(a, from, to) == Integral(b, from, to)
  {
    SumPermutes(a, b, ShareOf(from, to));
  }

  /** A rollup row always meets its table's check. */
  lemma {:induction false} EstimatedWithin(rows: seq<Interval>, from: int, to: int)
    ensures var t := Integral(rows, from, to); 0 <= t.estimated <= t.pods
  {
    if rows == [] {
    } else {
      EstimatedWithin(rows[..|rows| - 1], from, to);
    }
  }

  /** Cutting a window in two loses no time, unless the cut falls inside an interval whose two ends' fractions
      of a second only together make up a whole one. */
  lemma SplitAtMidnight(r: Interval, from: int, mid: int, to: int)
    requires from <= mid <= to
    ensures var start := if r.started < from then from else r.started;
            var end := if r.ended.Some? && r.ended.value < to then r.ended.value else to;
            Seconds(r, from, mid) + Seconds(r, mid, to) == Seconds(r, from, to) <==>
            !(start < mid < end && (mid - start) % SECOND + (end - mid) % SECOND >= SECOND)
  {
  }

  // ---- what a day's rollup covers ----

  datatype Key = Key(app: App, day: int)

  predicate Overlaps(r: Interval, app: App, from: int, to: int) {
    r.app == app && r.started < to && (r.ended.None? || r.ended.value > from)
  }

  function Overlapping(rows: seq<Interval>, app: App, from: int, to: int): seq<Interval> {
    if rows == [] then []
    else
      var r := rows[|rows| - 1];
      Overlapping(rows[..|rows| - 1], app, from, to) + if Overlaps(r, app, from, to) then [r] else []
  }

  function DayShare(r: Interval, key: Key): Totals {
    if r.app == key.app then Share(r, key.day * DAY, (key.day + 1) * DAY) else ZERO_TOTALS
  }

  function DayShareOf(key: Key): Interval -> Totals {
    r => DayShare(r, key)
  }

  /** What the ledger, as it stands, says of a day. */
  function DayTotals(rows: seq<Interval>, key: Key): Totals {
    Sum(rows, DayShareOf(key))
  }

  lemma ShareOutside(r: Interval, key: Key)
    ensures var from, to := key.day * DAY, (key.day + 1) * DAY;
            DayShare(r, key) == if Overlaps(r, key.app, from, to) then Share(r, from, to) else ZERO_TOTALS
  {
  }

  /** The rows the overlap query leaves out have nothing to add. */
  lemma {:induction false} OverlapSuffices(rows: seq<Interval>, key: Key)
    ensures var from, to := key.day * DAY, (key.day + 1) * DAY;
            Integral(Overlapping(rows, key.app, from, to), from, to) == DayTotals(rows, key)
  {
    if rows == [] {
    } else {
      var from, to := key.day * DAY, (key.day + 1) * DAY;
      var front, r := rows[..|rows| - 1], rows[|rows| - 1];
      var listed := Overlapping(front, key.app, from, to);
      OverlapSuffices(front, key);
      ShareOutside(r, key);
      if Overlaps(r, key.app, from, to) {
        SumConcat(listed, [r], ShareOf(from, to));
        SumOne(r, ShareOf(from, to));
      } else {
        assert listed + [] == listed;
      }
    }
  }

  function SeenShare(seen: seq<Interval>, i: nat, key: Key): Totals {
    if i < |seen| then DayShare(seen[i], key) else ZERO_TOTALS
  }

  lemma {:induction false} SameShares(seen: seq<Interval>, rows: seq<Interval>, key: Key)
    requires |seen| <= |rows|
    requires forall i | 0 <= i < |rows| :: DayShare(rows[i], key) == SeenShare(seen, i, key)
    ensures DayTotals(seen, key) == DayTotals(rows, key)
    decreases |rows|
  {
    if rows == [] {
    } else {
      var n := |rows| - 1;
      assert DayShare(rows[n], key) == SeenShare(seen, n, key);
      if |seen| == |rows| {
        assert forall i | 0 <= i < n :: SeenShare(seen[..n], i, key) == SeenShare(seen, i, key);
        SameShares(seen[..n], rows[..n], key);
      } else {
        SameShares(seen, rows[..n], key);
      }
    }
  }
}
