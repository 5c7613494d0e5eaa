/** Whole runs of the rate limiter: buckets are independent, eviction cannot be noticed, and admissions are
    bounded by the quota. */
module RateLaws {
  import opened Bytes
  import opened RateLimit

  // ---- a run, seen from one bucket ----

  /** What an operation does to the bucket named k, whatever the rest of the pool holds. */
  function SlotStep(c: Config, k: string, slot: Option<Bucket>, op: Op): Option<Bucket> {
    match op
    case Call(_, _, plan, _, now) =>
      var q := QuotaOf(c, op);
      if q <= 0 || Name(op) != k then slot else Some(Used(Entry(slot, plan, q, now), now))
    case Sweep(now) => if slot.Some? && Stale(slot.value, now - c.idleTTL) then None else slot
    case Invalidate(scope, key) => if HasPrefix(k, KeyPrefix(scope, key)) then None else slot
  }

  lemma StepSlot(c: Config, k: string, pool: Pool, op: Op)
    ensures Slot(Step(c, pool, op), k) == SlotStep(c, k, Slot(pool, k), op)
  {
  }

  function Run(c: Config, pool: Pool, ops: seq<Op>): Pool
    decreases |ops|
  {
    if ops == [] then pool else Run(c, Step(c, pool, ops[0]), ops[1..])
  }

  /** The answers to the calls of a run, in order. */
  function Replies(c: Config, pool: Pool, ops: seq<Op>): seq<Reply>
    decreases |ops|
  {
    if ops == [] then []
    else Replied(c, pool, ops[0]) + Replies(c, Step(c, pool, ops[0]), ops[1..])
  }

  function Replied(c: Config, pool: Pool, op: Op): seq<Reply> {
    if op.Call? then [Answer(c, Slot(pool, Name(op)), op)] else []
  }

  /** Those of them that the bucket named k gave. */
  function RepliesAt(c: Config, pool: Pool, ops: seq<Op>, k: string): seq<Reply>
    decreases |ops|
  {
    if ops == [] then []
    else (if ops[0].Call? && Name(ops[0]) == k then Replied(c, pool, ops[0]) else [])
         + RepliesAt(c, Step(c, pool, ops[0]), ops[1..], k)
  }

  predicate Touches(op: Op, k: string) {
    match op
    case Call(_, _, _, _, _) => Name(op) == k
    case Sweep(_) => true
    case Invalidate(scope, key) => HasPrefix(k, KeyPrefix(scope, key))
  }

  function Touching(ops: seq<Op>, k: string): seq<Op> {
    if ops == [] then []
    else if Touches(ops[0], k) then [ops[0]] + Touching(ops[1..], k)
    else Touching(ops[1..], k)
  }

  /** Calls on other buckets, and invalidations of other keys, change nothing a bucket ever answers. */
  lemma {:induction false} Isolation(c: Config, p: Pool, p': Pool, ops: seq<Op>, k: string)
    requires Slot(p, k) == Slot(p', k)
    ensures RepliesAt(c, p, ops, k) == RepliesAt(c, p', Touching(ops, k), k)
    decreases |ops|
  {
    if ops == [] {
    } else {
      StepSlot(c, k, p, ops[0]);
      StepSlot(c, k, p', ops[0]);
      if Touches(ops[0], k) {
        Isolation(c, Step(c, p, ops[0]), Step(c, p', ops[0]), ops[1..], k);
        var some := [ops[0]] + Touching(ops[1..], k);
        assert some[1..] == Touching(ops[1..], k);
      } else {
        Isolation(c, Step(c, p, ops[0]), p', ops[1..], k);
      }
    }
  }

  // ---- what holds of every bucket ----

  predicate Timed(op: Op) {
    !op.Invalidate?
  }

  /** The clock never goes back, from a time on. */
  predicate Ordered(ops: seq<Op>, now: int) {
    ops == [] || (After(ops[0], now) && Ordered(ops[1..], Now(ops[0], now)))
  }

  predicate After(op: Op, now: int) {
    Timed(op) ==> now <= op.now
  }

  function Now(op: Op, now: int): int {
    if Timed(op) then op.now else now
  }

  function Times(h: int, q: int): int {
    h * q
  }

  ghost predicate Multiple(x: int, q: int) {
    exists h: int :: x == Times(h, q)
  }

  ghost predicate Divides(q: int) {
    q > 0 ==> Multiple(MINUTE, q)
  }

  /** Every quota divides a minute, so that no call is admitted early. */
  ghost predicate Whole(c: Config) {
    forall plan, scope, cat :: Divides(QuotaFor(c.quotas, plan, scope, cat))
  }

  lemma DefaultsWhole(c: Config)
    requires c.quotas == DefaultPlanQuotas()
    ensures Whole(c)
  {
    assert Times(200_000_000, 300) == Times(2_000_000_000, 30) == Times(6_000_000_000, 10) == MINUTE;
    assert Times(1_000_000_000, 60) == Times(100_000_000, 600) == Times(25_000_000, 2400) == MINUTE;
    assert Times(250_000_000, 240) == Times(500_000_000, 120) == Times(50_000_000, 1200) == MINUTE;
    assert Times(10_000_000, 6000) == Times(20_000_000, 3000) == MINUTE;
  }

  /** Buckets of quota q are kept long enough to be full again. */
  ghost predicate Keeps(c: Config, q: int) {
    c.idleTTL >= MINUTE || (c.idleTTL + 1 >= MINUTE && Multiple(MINUTE, q))
  }

  /** All buckets are. */
  ghost predicate Patient(c: Config) {
    c.idleTTL >= MINUTE || (c.idleTTL + 1 >= MINUTE && Whole(c))
  }

  ghost predicate Good(c: Config, slot: Option<Bucket>, now: int) {
    slot.Some? ==>
      && Sound(slot.value) && slot.value.last <= now && Even(slot.value)
      && (Whole(c) ==> Multiple(MINUTE, slot.value.perMinute))
  }

  /** A quota that divides a minute keeps its tokens whole. */
  ghost predicate Even(b: Bucket) {
    Multiple(MINUTE, b.perMinute) ==> Multiple(b.tokens, b.perMinute)
  }

  lemma MultipleAdd(x: int, y: int, q: int)
    requires Multiple(x, q) && Multiple(y, q)
    ensures Multiple(x + y, q) && Multiple(x - y, q)
  {
    var g: int :| x == Times(g, q);
    var h: int :| y == Times(h, q);
    assert x + y == Times(g + h, q) && x - y == Times(g - h, q);
  }

  lemma MultipleNotBelow(x: int, q: int)
    requires Multiple(x, q) && -q < x && q > 0
    ensures x >= 0
  {
    var h: int :| x == Times(h, q);
    var n := -h;
    assert n >= 1 ==> n * q >= q;
    assert h * q == -(n * q);
  }

  lemma UsedEven(b: Bucket, now: int)
    requires Even(b)
    ensures Even(Used(b, now))
  {
    if Multiple(MINUTE, b.perMinute) {
      var q := b.perMinute;
      var e := if now < b.last then 0 else now - b.last;
      assert q * e == Times(e, q) && Full(q) == Times(MINUTE, q);
      MultipleAdd(b.tokens, q * e, q);
      MultipleAdd(Refill(b, now), MINUTE, q);
    }
  }

  lemma StepGood(c: Config, k: string, slot: Option<Bucket>, op: Op, now: int)
    requires Good(c, slot, now) && After(op, now)
    ensures Good(c, SlotStep(c, k, slot, op), Now(op, now))
  {
    if op.Call? && QuotaOf(c, op) > 0 {
      var q := QuotaOf(c, op);
      var b := Entry(slot, op.plan, q, op.now);
      assert Full(q) == Times(MINUTE, q);
      assert Whole(c) ==> Divides(QuotaFor(c.quotas, op.plan, op.scope, op.cat));
      UsedSound(b, op.now);
      UsedEven(b, op.now);
    }
  }

  /** A bucket idle for longer than the limit is full. */
  lemma IdleIsFull(c: Config, slot: Option<Bucket>, now: int, later: int)
    requires slot.Some? && Good(c, slot, now) && Keeps(c, slot.value.perMinute) && now <= later
    requires Stale(slot.value, now - c.idleTTL)
    ensures Refill(slot.value, later) == Full(slot.value.perMinute)
  {
    var b := slot.value;
    var q, e := b.perMinute, later - b.last;
    if e >= MINUTE + 1 {
      assert q * e == q * (MINUTE + 1) + q * (e - MINUTE - 1);
      assert q * (e - MINUTE - 1) >= 0;
    } else {
      assert e == MINUTE && b.tokens >= 0 by {
        MultipleNotBelow(b.tokens, q);
      }
    }
  }

  // ---- eviction cannot be noticed ----

  function Unswept(ops: seq<Op>): seq<Op> {
    if ops == [] then []
    else if ops[0].Sweep? then Unswept(ops[1..])
    else [ops[0]] + Unswept(ops[1..])
  }

  /** A slot of the sweeping limiter beside that of one that never sweeps: the same, or evicted and full. */
  ghost predicate Alike(p: Option<Bucket>, f: Option<Bucket>, now: int) {
    p == f || (p.None? && f.Some? && f.value.last <= now && f.value.perMinute > 0
               && Refill(f.value, now) == Full(f.value.perMinute))
  }

  lemma StaysFull(b: Bucket, now: int, later: int)
    requires b.perMinute > 0 && b.last <= now <= later && Refill(b, now) == Full(b.perMinute)
    ensures Refill(b, later) == Full(b.perMinute)
  {
    RefillAdds(b, now, later);
  }

  lemma CallAlike(c: Config, k: string, p: Option<Bucket>, f: Option<Bucket>, op: Op, now: int)
    requires Alike(p, f, now) && op.Call? && now <= op.now
    ensures Alike(SlotStep(c, k, p, op), SlotStep(c, k, f, op), op.now)
    ensures Answer(c, p, op) == Answer(c, f, op)
  {
    if p != f {
      StaysFull(f.value, now, op.now);
    }
  }

  lemma SweepAlike(c: Config, k: string, p: Option<Bucket>, f: Option<Bucket>, op: Op, now: int)
    requires Alike(p, f, now) && op.Sweep? && now <= op.now
    requires Good(c, f, now) && Patient(c)
    ensures Alike(SlotStep(c, k, p, op), f, op.now)
  {
    if p != f {
      StaysFull(f.value, now, op.now);
    } else if f.Some? && Stale(f.value, op.now - c.idleTTL) {
      IdleIsFull(c, f, op.now, op.now);
    }
  }

  ghost predicate AllAlike(c: Config, p: Pool, f: Pool, now: int) {
    forall k: string :: Alike(Slot(p, k), Slot(f, k), now) && Good(c, Slot(f, k), now)
  }

  lemma StepAlike(c: Config, p: Pool, f: Pool, op: Op, now: int)
    requires AllAlike(c, p, f, now) && After(op, now) && Patient(c)
    ensures AllAlike(c, Step(c, p, op), if op.Sweep? then f else Step(c, f, op), Now(op, now))
    ensures !op.Sweep? ==> Replied(c, p, op) == Replied(c, f, op)
  {
    var f' := if op.Sweep? then f else Step(c, f, op);
    forall k: string
      ensures Alike(Slot(Step(c, p, op), k), Slot(f', k), Now(op, now)) && Good(c, Slot(f', k), Now(op, now))
    {
      assert Alike(Slot(p, k), Slot(f, k), now);
      SlotAlike(c, k, Slot(p, k), Slot(f, k), op, now);
      StepSlot(c, k, p, op);
      StepSlot(c, k, f, op);
    }
    if op.Call? {
      assert Alike(Slot(p, Name(op)), Slot(f, Name(op)), now);
      CallAlike(c, Name(op), Slot(p, Name(op)), Slot(f, Name(op)), op, now);
    }
  }

  lemma SlotAlike(c: Config, k: string, p: Option<Bucket>, f: Option<Bucket>, op: Op, now: int)
    requires Alike(p, f, now) && Good(c, f, now) && After(op, now) && Patient(c)
    ensures var f' := if op.Sweep? then f else SlotStep(c, k, f, op);
            Alike(SlotStep(c, k, p, op), f', Now(op, now)) && Good(c, f', Now(op, now))
  {
    match op
    case Call(_, _, _, _, _) =>
      CallAlike(c, k, p, f, op, now);
      StepGood(c, k, f, op, now);
    case Sweep(_) =>
      SweepAlike(c, k, p, f, op, now);
    case Invalidate(_, _) =>
  }

  lemma {:induction false} RunsAlike(c: Config, p: Pool, f: Pool, ops: seq<Op>, now: int)
    requires AllAlike(c, p, f, now) && Ordered(ops, now) && Patient(c)
    ensures Replies(c, p, ops) == Replies(c, f, Unswept(ops))
    decreases |ops|
  {
    if ops == [] {
    } else {
      StepAlike(c, p, f, ops[0], now);
      if ops[0].Sweep? {
        RunsAlike(c, Step(c, p, ops[0]), f, ops[1..], Now(ops[0], now));
      } else {
        RunsAlike(c, Step(c, p, ops[0]), Step(c, f, ops[0]), ops[1..], Now(ops[0], now));
        var rest := Unswept(ops[1..]);
        assert ([ops[0]] + rest)[1..] == rest;
      }
    }
  }

  /** A limiter that sweeps, at any points of any run, gives every call the answer of one that never does. */
  lemma EvictionInvisible(c: Config, ops: seq<Op>, start: int)
    requires Patient(c) && Ordered(ops, start)
    ensures Replies(c, map[], ops) == Replies(c, map[], Unswept(ops))
  {
    RunsAlike(c, map[], map[], ops, start);
  }

  // ---- the rate bound ----

  function CountOk(rs: seq<Reply>): nat {
    if rs == [] then 0 else (if rs[0].ok then 1 else 0) + CountOk(rs[1..])
  }

  /** Every call on the bucket is for this plan and quota, and it is never invalidated. */
  predicate Steady(c: Config, ops: seq<Op>, k: string, plan: Plan, q: int) {
    ops == [] || (SteadyOp(c, ops[0], k, plan, q) && Steady(c, ops[1..], k, plan, q))
  }

  predicate SteadyOp(c: Config, op: Op, k: string, plan: Plan, q: int) {
    match op
    case Call(_, _, _, _, _) => Name(op) == k ==> op.plan == plan && QuotaOf(c, op) == q
    case Sweep(_) => true
    case Invalidate(scope, key) => !HasPrefix(k, KeyPrefix(scope, key))
  }

  predicate Until(ops: seq<Op>, end: int) {
    ops == [] || ((Timed(ops[0]) ==> ops[0].now <= end) && Until(ops[1..], end))
  }

  /** What the bucket of a call holds when the call is made. */
  function Level(slot: Option<Bucket>, plan: Plan, q: int, now: int): int {
    Refill(Entry(slot, plan, q, now), now)
  }

  lemma LevelBounds(c: Config, slot: Option<Bucket>, plan: Plan, q: int, now: int)
    requires q > 0 && Good(c, slot, now)
    ensures -q < Level(slot, plan, q, now) <= Full(q)
  {
    var b := Entry(slot, plan, q, now);
    assert b.perMinute * (now - b.last) >= 0;
  }

  lemma LevelGrows(c: Config, slot: Option<Bucket>, plan: Plan, q: int, now: int, later: int)
    requires q > 0 && Good(c, slot, now) && now <= later
    ensures Level(slot, plan, q, later) <= Level(slot, plan, q, now) + q * (later - now)
  {
    var b := Entry(slot, plan, q, now);
    if b == Entry(slot, plan, q, later) {
      RefillAdds(b, now, later);
    } else {
      assert q * (later - now) >= 0;
    }
  }

  /** Each step: what the bucket gains is at most what time brings, less what an admission costs. */
  lemma StepLevel(c: Config, k: string, slot: Option<Bucket>, op: Op, plan: Plan, q: int, now: int)
    requires q > 0 && Good(c, slot, now) && After(op, now) && Keeps(c, q) && SteadyOp(c, op, k, plan, q)
    ensures var later := Now(op, now);
            Level(SlotStep(c, k, slot, op), plan, q, later)
            <= Level(slot, plan, q, now) + q * (later - now)
               - (if op.Call? && Name(op) == k && Answer(c, slot, op).ok then MINUTE else 0)
  {
    LevelGrows(c, slot, plan, q, now, Now(op, now));
    if op.Call? {
      CallLevel(c, k, slot, op, plan, q);
    } else if op.Sweep? {
      SweepLevel(c, k, slot, op, plan, q);
    }
  }

  lemma CallLevel(c: Config, k: string, slot: Option<Bucket>, op: Op, plan: Plan, q: int)
    requires q > 0 && op.Call? && SteadyOp(c, op, k, plan, q)
    ensures Level(SlotStep(c, k, slot, op), plan, q, op.now)
            == Level(slot, plan, q, op.now) - (if Name(op) == k && Answer(c, slot, op).ok then MINUTE else 0)
  {
    if Name(op) == k {
      WaitPositive(Entry(slot, plan, q, op.now), op.now);
    }
  }

  lemma SweepLevel(c: Config, k: string, slot: Option<Bucket>, op: Op, plan: Plan, q: int)
    requires q > 0 && op.Sweep? && Good(c, slot, op.now) && Keeps(c, q)
    ensures Level(SlotStep(c, k, slot, op), plan, q, op.now) == Level(slot, plan, q, op.now)
  {
    if slot.Some? && Stale(slot.value, op.now - c.idleTTL) && slot.value.plan == plan && slot.value.perMinute == q {
      IdleIsFull(c, slot, op.now, op.now);
    }
  }

  lemma {:induction false} AdmittedWithin(c: Config, pool: Pool, ops: seq<Op>, k: string, plan: Plan, q: int,
                                          now: int, end: int)
    requires q > 0 && Keeps(c, q) && Good(c, Slot(pool, k), now) && now <= end
    requires Ordered(ops, now) && Until(ops, end) && Steady(c, ops, k, plan, q)
    ensures CountOk(RepliesAt(c, pool, ops, k)) * MINUTE
            < Level(Slot(pool, k), plan, q, now) + q * (end - now) + q
    decreases |ops|
  {
    var slot := Slot(pool, k);
    LevelBounds(c, slot, plan, q, now);
    if ops == [] {
      Spread(q, now, now, end);
    } else {
      var later := Now(ops[0], now);
      Spread(q, now, later, end);
      AdmittedStep(c, pool, ops, k, plan, q, now);
      AdmittedWithin(c, Step(c, pool, ops[0]), ops[1..], k, plan, q, later, end);
    }
  }

  lemma Spread(q: int, now: int, later: int, end: int)
    requires q > 0
    ensures q * (end - now) == q * (end - later) + q * (later - now)
    ensures now <= end ==> q * (end - now) >= 0
  {
  }

  lemma AdmittedStep(c: Config, pool: Pool, ops: seq<Op>, k: string, plan: Plan, q: int, now: int)
    requires ops != [] && q > 0 && Keeps(c, q) && Good(c, Slot(pool, k), now)
    requires After(ops[0], now) && SteadyOp(c, ops[0], k, plan, q)
    ensures var next, later := Step(c, pool, ops[0]), Now(ops[0], now);
            && Good(c, Slot(next, k), later)
            && Level(Slot(next, k), plan, q, later) + CountOk(RepliesAt(c, pool, ops, k)) * MINUTE
               <= Level(Slot(pool, k), plan, q, now) + q * (later - now)
                  + CountOk(RepliesAt(c, next, ops[1..], k)) * MINUTE
  {
    StepSlot(c, k, pool, ops[0]);
    StepGood(c, k, Slot(pool, k), ops[0], now);
    StepLevel(c, k, Slot(pool, k), ops[0], plan, q, now);
    CountFirst(c, pool, ops, k);
  }

  lemma CountFirst(c: Config, pool: Pool, ops: seq<Op>, k: string)
    requires ops != []
    ensures CountOk(RepliesAt(c, pool, ops, k)) == CountOk(RepliesAt(c, Step(c, pool, ops[0]), ops[1..], k))
            + (if ops[0].Call? && Name(ops[0]) == k && Answer(c, Slot(pool, k), ops[0]).ok then 1 else 0)
  {
    var rest := RepliesAt(c, Step(c, pool, ops[0]), ops[1..], k);
    if ops[0].Call? && Name(ops[0]) == k {
      assert ([Answer(c, Slot(pool, k), ops[0])] + rest)[1..] == rest;
    } else {
      assert [] + rest == rest;
    }
  }

  lemma {:induction false} RunGood(c: Config, pool: Pool, ops: seq<Op>, k: string, start: int, now: int)
    requires Good(c, Slot(pool, k), start) && start <= now && Ordered(ops, start) && Until(ops, now)
    ensures Good(c, Slot(Run(c, pool, ops), k), now)
    decreases |ops|
  {
    if ops == [] {
    } else {
      StepSlot(c, k, pool, ops[0]);
      StepGood(c, k, Slot(pool, k), ops[0], start);
      RunGood(c, Step(c, pool, ops[0]), ops[1..], k, Now(ops[0], start), now);
    }
  }

  lemma MultipleGap(n: nat, q: int, d: int)
    requires q > 0 && Multiple(MINUTE, q) && n * MINUTE < q * MINUTE + q * d + q
    ensures n * MINUTE <= q * MINUTE + q * d
  {
    var g: int :| MINUTE == Times(g, q);
    assert n * MINUTE == Times(n * g, q);
    assert q * MINUTE + q * d == Times(MINUTE + d, q);
    MultipleAdd(q * MINUTE + q * d, n * MINUTE, q);
    MultipleNotBelow(q * MINUTE + q * d - n * MINUTE, q);
  }

  /** After any history, a window of d nanoseconds admits at most q + q*d/MINUTE calls on a bucket whose quota q
      divides a minute, and for any other quota less than one nanosecond's refill more; with calls on other buckets
      and sweeps in between. */
  lemma RateBound(c: Config, before: seq<Op>, ops: seq<Op>, k: string, plan: Plan, q: int,
                  start: int, now: int, end: int)
    requires q > 0 && Keeps(c, q) && start <= now <= end
    requires Ordered(before, start) && Until(before, now)
    requires Ordered(ops, now) && Until(ops, end) && Steady(c, ops, k, plan, q)
    ensures CountOk(RepliesAt(c, Run(c, map[], before), ops, k)) * MINUTE < q * MINUTE + q * (end - now) + q
    ensures Multiple(MINUTE, q) ==>
              CountOk(RepliesAt(c, Run(c, map[], before), ops, k)) * MINUTE <= q * MINUTE + q * (end - now)
  {
    RunGood(c, map[], before, k, start, now);
    var pool := Run(c, map[], before);
    LevelBounds(c, Slot(pool, k), plan, q, now);
    AdmittedWithin(c, pool, ops, k, plan, q, now, end);
    if Multiple(MINUTE, q) {
      MultipleGap(CountOk(RepliesAt(c, pool, ops, k)), q, end - now);
    }
  }

  /** After any run a bucket holds no more than its burst, and not less than nothing if its quota divides a minute;
      any other quota may dip below by less than a nanosecond's refill. */
  lemma TokensBounded(c: Config, ops: seq<Op>, k: string, start: int, now: int)
    requires Ordered(ops, start) && Until(ops, now) && start <= now
    ensures var slot := Slot(Run(c, map[], ops), k);
            slot.Some? ==>
              && -slot.value.perMinute < slot.value.tokens <= Full(slot.value.perMinute)
              && (Multiple(MINUTE, slot.value.perMinute) ==> slot.value.tokens >= 0)
  {
    RunGood(c, map[], ops, k, start, now);
    var slot := Slot(Run(c, map[], ops), k);
    if slot.Some? && Multiple(MINUTE, slot.value.perMinute) {
      MultipleNotBelow(slot.value.tokens, slot.value.perMinute);
    }
  }

  /** A refused call costs its bucket nothing, then or later. */
  lemma RefusedIsFree(c: Config, pool: Pool, op: Op, later: int)
    requires op.Call? && Good(c, Slot(pool, Name(op)), op.now) && op.now <= later
    ensures !Answer(c, Slot(pool, Name(op)), op).ok ==>
            Level(Slot(Step(c, pool, op), Name(op)), op.plan, QuotaOf(c, op), later)
            == Level(Slot(pool, Name(op)), op.plan, QuotaOf(c, op), later)
  {
    var q := QuotaOf(c, op);
    if q > 0 {
      var b := Entry(Slot(pool, Name(op)), op.plan, q, op.now);
      WaitPositive(b, op.now);
      RefillAdds(b, op.now, later);
    }
  }
}
