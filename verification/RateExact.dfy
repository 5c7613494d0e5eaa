/** Where the promises of the rate limiter stop: runs that beat the rate bound, or notice an eviction, and the exact
    conditions under which there are none. */
module RateExact {
  import opened Bytes
  import opened RateLimit
  import opened RateLaws

  // ---- bursts ----

  function Repeat(op: Op, n: nat): seq<Op> {
    if n == 0 then [] else [op] + Repeat(op, n - 1)
  }

  predicate AllOk(rs: seq<Reply>) {
    rs == [] || (rs[0].ok && AllOk(rs[1..]))
  }

  lemma {:induction false} RepliesConcat(c: Config, pool: Pool, a: seq<Op>, b: seq<Op>)
    ensures Replies(c, pool, a + b) == Replies(c, pool, a) + Replies(c, Run(c, pool, a), b)
    decreases |a|
  {
    if a == [] {
      assert a + b == b;
    } else {
      assert (a + b)[1..] == a[1..] + b;
      RepliesConcat(c, Step(c, pool, a[0]), a[1..], b);
    }
  }

  function LevelFor(c: Config, pool: Pool, op: Op): int
    requires op.Call?
  {
    Level(Slot(pool, Name(op)), op.plan, QuotaOf(c, op), op.now)
  }

  lemma LevelNext(c: Config, pool: Pool, op: Op)
    requires op.Call? && QuotaOf(c, op) > 0
    ensures var r, q := LevelFor(c, pool, op), QuotaOf(c, op);
            && LevelFor(c, Step(c, pool, op), op) == (if r > MINUTE - q then r - MINUTE else r)
            && (Answer(c, Slot(pool, Name(op)), op).ok <==> r > MINUTE - q)
  {
    WaitPositive(Entry(Slot(pool, Name(op)), op.plan, QuotaOf(c, op), op.now), op.now);
  }

  /** A burst of n calls at one instant passes if and only if the bucket holds enough for the last of them. */
  lemma {:induction false} Burst(c: Config, pool: Pool, op: Op, n: nat)
    requires op.Call? && QuotaOf(c, op) > 0
    ensures AllOk(Replies(c, pool, Repeat(op, n))) <==>
            n == 0 || LevelFor(c, pool, op) > n * MINUTE - QuotaOf(c, op)
    decreases n
  {
    if n == 0 {
    } else {
      BurstFirst(c, pool, op, n);
      LevelNext(c, pool, op);
      Burst(c, Step(c, pool, op), op, n - 1);
    }
  }

  lemma {:induction false} BurstLeaves(c: Config, pool: Pool, op: Op, n: nat)
    requires op.Call? && QuotaOf(c, op) > 0
    requires LevelFor(c, pool, op) > n * MINUTE - QuotaOf(c, op) && n > 0
    ensures Slot(Run(c, pool, Repeat(op, n)), Name(op)) ==
            Some(Bucket(op.plan, QuotaOf(c, op), LevelFor(c, pool, op) - n * MINUTE, op.now, op.now))
    decreases n
  {
    LevelNext(c, pool, op);
    assert Repeat(op, n)[1..] == Repeat(op, n - 1);
    if n > 1 {
      BurstLeaves(c, Step(c, pool, op), op, n - 1);
    } else {
      StepSlot(c, Name(op), pool, op);
    }
  }

  lemma BurstFirst(c: Config, pool: Pool, op: Op, n: nat)
    requires op.Call? && n > 0
    ensures var first := Answer(c, Slot(pool, Name(op)), op);
            AllOk(Replies(c, pool, Repeat(op, n))) <==>
            first.ok && AllOk(Replies(c, Step(c, pool, op), Repeat(op, n - 1)))
  {
    var rest := Replies(c, Step(c, pool, op), Repeat(op, n - 1));
    assert Repeat(op, n)[1..] == Repeat(op, n - 1);
    assert ([Answer(c, Slot(pool, Name(op)), op)] + rest)[1..] == rest;
  }

  lemma {:induction false} UnsweptConcat(a: seq<Op>, b: seq<Op>)
    ensures Unswept(a + b) == Unswept(a) + Unswept(b)
  {
    if a == [] {
      assert a + b == b;
    } else {
      assert (a + b)[1..] == a[1..] + b;
      UnsweptConcat(a[1..], b);
    }
  }

  lemma {:induction false} AllOkConcat(a: seq<Reply>, b: seq<Reply>)
    ensures AllOk(a + b) <==> AllOk(a) && AllOk(b)
  {
    if a == [] {
      assert a + b == b;
    } else {
      assert (a + b)[1..] == a[1..] + b;
      AllOkConcat(a[1..], b);
    }
  }

  /** A bucket not there yet takes a full burst, and is then empty. */
  lemma EmptiedBurst(c: Config, pool: Pool, op: Op)
    requires op.Call? && QuotaOf(c, op) > 0 && Slot(pool, Name(op)) == None
    ensures var q := QuotaOf(c, op);
            && AllOk(Replies(c, pool, Repeat(op, q)))
            && Slot(Run(c, pool, Repeat(op, q)), Name(op)) == Some(Bucket(op.plan, q, 0, op.now, op.now))
  {
    Burst(c, pool, op, QuotaOf(c, op));
    BurstLeaves(c, pool, op, QuotaOf(c, op));
  }

  lemma {:induction false} UnlimitedBurst(c: Config, pool: Pool, op: Op, n: nat)
    requires op.Call? && QuotaOf(c, op) <= 0
    ensures AllOk(Replies(c, pool, Repeat(op, n)))
    decreases n
  {
    if n > 0 {
      BurstFirst(c, pool, op, n);
      UnlimitedBurst(c, Step(c, pool, op), op, n - 1);
    }
  }

  // ---- what the quota table means ----

  /** n of these calls at one instant are all admitted, from no buckets. */
  predicate Admits(quotas: Quotas, scope: Scope, key: string, plan: Plan, cat: Category, now: int, n: nat) {
    AllOk(Replies(Config(quotas, DAY), map[], Repeat(Call(scope, key, plan, cat, now), n)))
  }

  /** A cell of at most one call a nanosecond admits its own number; what refills within the nanosecond that a token
      may be early comes on top of larger ones. */
  predicate WithinCell(n: nat, cell: int) {
    cell <= 0 || n <= (if cell <= MINUTE then cell else cell + (cell - 1) / MINUTE)
  }

  lemma CellArithmetic(n: nat, q: int)
    requires q > 0
    ensures n == 0 || q * MINUTE > n * MINUTE - q <==> WithinCell(n, q)
  {
    var x := n - q;
    assert (q - 1) / MINUTE * MINUTE <= q - 1 < (q - 1) / MINUTE * MINUTE + MINUTE;
  }

  lemma AdmitsIff(quotas: Quotas, scope: Scope, key: string, plan: Plan, cat: Category, now: int, n: nat)
    ensures Admits(quotas, scope, key, plan, cat, now, n) <==> WithinCell(n, QuotaFor(quotas, plan, scope, cat))
  {
    var c, op := Config(quotas, DAY), Call(scope, key, plan, cat, now);
    if QuotaOf(c, op) > 0 {
      Burst(c, map[], op, n);
      CellArithmetic(n, QuotaOf(c, op));
    } else {
      UnlimitedBurst(c, map[], op, n);
    }
  }

  /** Each of a plan's five numbers is how many calls of its own scope and category pass at once; zero or less is
      no limit, and a team's reads have none. */
  lemma PlanCells(quotas: Quotas, key: string, plan: Plan, now: int, n: nat)
    requires plan in quotas
    ensures Admits(quotas, PerToken, key, plan, Read, now, n) <==> WithinCell(n, quotas[plan].tokenRead)
    ensures Admits(quotas, PerToken, key, plan, Write, now, n) <==> WithinCell(n, quotas[plan].tokenWrite)
    ensures Admits(quotas, PerToken, key, plan, PreviewCreate, now, n) <==> WithinCell(n, quotas[plan].tokenPreview)
    ensures Admits(quotas, PerTeam, key, plan, Write, now, n) <==> WithinCell(n, quotas[plan].teamWrite)
    ensures Admits(quotas, PerTeam, key, plan, PreviewCreate, now, n) <==> WithinCell(n, quotas[plan].teamPreview)
    ensures Admits(quotas, PerTeam, key, plan, Read, now, n)
  {
    AdmitsIff(quotas, PerToken, key, plan, Read, now, n);
    AdmitsIff(quotas, PerToken, key, plan, Write, now, n);
    AdmitsIff(quotas, PerToken, key, plan, PreviewCreate, now, n);
    AdmitsIff(quotas, PerTeam, key, plan, Write, now, n);
    AdmitsIff(quotas, PerTeam, key, plan, PreviewCreate, now, n);
    AdmitsIff(quotas, PerTeam, key, plan, Read, now, n);
  }

  /** A plan the table does not know is served like the free plan, and without limit if that is missing too. */
  lemma UnknownPlan(quotas: Quotas, scope: Scope, key: string, plan: Plan, cat: Category, now: int, n: nat)
    requires plan !in quotas
    ensures Admits(quotas, scope, key, plan, cat, now, n) <==>
            FREE !in quotas || Admits(quotas, scope, key, FREE, cat, now, n)
  {
    AdmitsIff(quotas, scope, key, plan, cat, now, n);
    AdmitsIff(quotas, scope, key, FREE, cat, now, n);
  }

  /** No default tier admits less than the one before it. */
  lemma DefaultsGrow(lower: nat, scope: Scope, key: string, cat: Category, now: int, n: nat)
    requires lower < 3 && Admits(DefaultPlanQuotas(), scope, key, TIERS[lower], cat, now, n)
    ensures Admits(DefaultPlanQuotas(), scope, key, TIERS[lower + 1], cat, now, n)
  {
    AdmitsIff(DefaultPlanQuotas(), scope, key, TIERS[lower], cat, now, n);
    AdmitsIff(DefaultPlanQuotas(), scope, key, TIERS[lower + 1], cat, now, n);
  }

  const TIERS: seq<Plan> := [FREE, "starter", "pro", "team"]

  // ---- lists of calls to one bucket ----

  /** The same call at another time, or a sweep. */
  predicate Alone(op: Op, x: Op)
    requires op.Call?
  {
    x.Sweep? || (x.Call? && x == op.(now := x.now))
  }

  ghost predicate AllAlone(op: Op, ops: seq<Op>)
    requires op.Call?
  {
    forall x | x in ops :: Alone(op, x)
  }

  /** Timed within [from, to], in order. */
  predicate Within(ops: seq<Op>, from: int, to: int) {
    if ops == [] then from <= to
    else Timed(ops[0]) && from <= ops[0].now && Within(ops[1..], ops[0].now, to)
  }

  lemma {:induction false} WithinOrdered(ops: seq<Op>, from: int, to: int)
    requires Within(ops, from, to)
    ensures Ordered(ops, from) && Until(ops, to) && from <= to
  {
    if ops == [] {
    } else {
      WithinOrdered(ops[1..], ops[0].now, to);
    }
  }

  lemma {:induction false} WithinConcat(a: seq<Op>, b: seq<Op>, from: int, mid: int, to: int)
    requires Within(a, from, mid) && Within(b, mid, to)
    ensures Within(a + b, from, to)
  {
    if a == [] {
      assert a + b == b;
      WithinWider(b, from, mid, to);
    } else {
      assert (a + b)[1..] == a[1..] + b;
      WithinConcat(a[1..], b, a[0].now, mid, to);
    }
  }

  lemma WithinWider(b: seq<Op>, from: int, mid: int, to: int)
    requires from <= mid && Within(b, mid, to)
    ensures Within(b, from, to)
  {
  }

  lemma {:induction false} RepeatWithin(op: Op, n: nat)
    requires op.Call?
    ensures Within(Repeat(op, n), op.now, op.now) && AllAlone(op, Repeat(op, n)) && |Repeat(op, n)| == n
    ensures Unswept(Repeat(op, n)) == Repeat(op, n)
  {
    if n == 0 {
    } else {
      RepeatWithin(op, n - 1);
      assert Repeat(op, n)[1..] == Repeat(op, n - 1);
    }
  }

  /** All the answers are the bucket's own, and its terms never change. */
  lemma {:induction false} AloneReplies(c: Config, pool: Pool, op: Op, ops: seq<Op>)
    requires op.Call? && AllAlone(op, ops)
    ensures RepliesAt(c, pool, ops, Name(op)) == Replies(c, pool, ops)
    ensures Steady(c, ops, Name(op), op.plan, QuotaOf(c, op))
    decreases |ops|
  {
    if ops == [] {
    } else {
      assert Alone(op, ops[0]);
      AloneReplies(c, Step(c, pool, ops[0]), op, ops[1..]);
    }
  }

  lemma {:induction false} CountAll(rs: seq<Reply>)
    requires AllOk(rs)
    ensures CountOk(rs) == |rs|
  {
    if rs == [] {
    } else {
      CountAll(rs[1..]);
    }
  }

  function Calls(ops: seq<Op>): nat {
    if ops == [] then 0 else (if ops[0].Call? then 1 else 0) + Calls(ops[1..])
  }

  lemma {:induction false} ReplyEach(c: Config, pool: Pool, ops: seq<Op>)
    ensures |Replies(c, pool, ops)| == Calls(ops)
    decreases |ops|
  {
    if ops == [] {
    } else {
      ReplyEach(c, Step(c, pool, ops[0]), ops[1..]);
    }
  }

  lemma {:induction false} CallsConcat(a: seq<Op>, b: seq<Op>)
    ensures Calls(a + b) == Calls(a) + Calls(b)
  {
    if a == [] {
      assert a + b == b;
    } else {
      assert (a + b)[1..] == a[1..] + b;
      CallsConcat(a[1..], b);
    }
  }

  lemma {:induction false} CallsRepeat(op: Op, n: nat)
    requires op.Call?
    ensures Calls(Repeat(op, n)) == n
  {
    if n == 0 {
    } else {
      CallsRepeat(op, n - 1);
      assert Repeat(op, n)[1..] == Repeat(op, n - 1);
    }
  }

  lemma AloneConcat(op: Op, a: seq<Op>, b: seq<Op>)
    requires op.Call? && AllAlone(op, a) && AllAlone(op, b)
    ensures AllAlone(op, a + b)
  {
  }

  /** A run in two parts passes if and only if both do, the second from where the first leaves off. */
  lemma BothOk(c: Config, pool: Pool, a: seq<Op>, b: seq<Op>)
    ensures AllOk(Replies(c, pool, a + b)) <==> AllOk(Replies(c, pool, a)) && AllOk(Replies(c, Run(c, pool, a), b))
  {
    RepliesConcat(c, pool, a, b);
    AllOkConcat(Replies(c, pool, a), Replies(c, Run(c, pool, a), b));
  }

  lemma {:induction false} RunConcat(c: Config, pool: Pool, a: seq<Op>, b: seq<Op>)
    ensures Run(c, pool, a + b) == Run(c, Run(c, pool, a), b)
    decreases |a|
  {
    if a == [] {
      assert a + b == b;
    } else {
      assert (a + b)[1..] == a[1..] + b;
      RunConcat(c, Step(c, pool, a[0]), a[1..], b);
    }
  }

  lemma SingleOp(op: Op)
    requires op.Call?
    ensures Repeat(op, 1) == [op]
  {
    assert Repeat(op, 0) == [];
  }

  // ---- calls admitted early ----

  function Held(c: Config, op: Op, tokens: int, at: int): Option<Bucket>
    requires op.Call?
  {
    Some(Bucket(op.plan, QuotaOf(c, op), tokens, at, at))
  }

  /** A call that follows another after e nanoseconds finds e refills more. */
  lemma HeldLevel(c: Config, pool: Pool, x: Op, tokens: int, e: nat)
    requires x.Call? && QuotaOf(c, x) > 0 && Slot(pool, Name(x)) == Held(c, x, tokens, x.now - e)
    ensures var q := QuotaOf(c, x); var level := tokens + q * e;
            LevelFor(c, pool, x) == if level > Full(q) then Full(q) else level
  {
  }

  lemma OneCall(c: Config, pool: Pool, x: Op)
    requires x.Call? && QuotaOf(c, x) > 0
    ensures AllOk(Replies(c, pool, [x])) <==> LevelFor(c, pool, x) > MINUTE - QuotaOf(c, x)
    ensures LevelFor(c, pool, x) > MINUTE - QuotaOf(c, x) ==>
              Slot(Run(c, pool, [x]), Name(x)) == Held(c, x, LevelFor(c, pool, x) - MINUTE, x.now)
  {
    SingleOp(x);
    Burst(c, pool, x, 1);
    if LevelFor(c, pool, x) > MINUTE - QuotaOf(c, x) {
      BurstLeaves(c, pool, x, 1);
    }
  }

  function Later(now: int, e: nat, k: nat): int {
    if k == 0 then now else Later(now, e, k - 1) + e
  }

  /** What k early calls leave owed. */
  function Debt(rho: nat, k: nat): (d: int)
    ensures d >= 0
  {
    if k == 0 then 0 else Debt(rho, k - 1) + rho
  }

  lemma OneEarly(rho: nat, now: int, e: nat)
    ensures Debt(rho, 1) == rho && Later(now, e, 1) == now + e
  {
    assert Debt(rho, 0) == 0 && Later(now, e, 0) == now;
  }

  /** k more calls, each e nanoseconds after the one before. */
  function Early(op: Op, e: nat, k: nat): seq<Op>
    requires op.Call?
  {
    if k == 0 then [] else Early(op, e, k - 1) + [op.(now := Later(op.now, e, k))]
  }

  lemma {:induction false} EarlyShape(op: Op, e: nat, k: nat)
    requires op.Call?
    ensures Within(Early(op, e, k), op.now, Later(op.now, e, k)) && AllAlone(op, Early(op, e, k))
    ensures Calls(Early(op, e, k)) == k
    ensures Unswept(Early(op, e, k)) == Early(op, e, k)
  {
    if k == 0 {
    } else {
      var x := op.(now := Later(op.now, e, k));
      EarlyShape(op, e, k - 1);
      assert [x][1..] == [];
      WithinConcat(Early(op, e, k - 1), [x], op.now, Later(op.now, e, k - 1), x.now);
      CallsConcat(Early(op, e, k - 1), [x]);
      UnsweptConcat(Early(op, e, k - 1), [x]);
    }
  }

  /** From an emptied bucket of a quota that does not divide a minute, calls a whole number of nanoseconds apart,
      rounded down, are all admitted, each owing the remainder, for as long as the debt stays below a refill. */
  lemma {:induction false} EarlyAdmitted(c: Config, pool: Pool, op: Op, e: nat, rho: nat, k: nat)
    requires op.Call? && QuotaOf(c, op) > 0 && Slot(pool, Name(op)) == Held(c, op, 0, op.now)
    requires QuotaOf(c, op) * e == MINUTE - rho && rho > 0 && Debt(rho, k) < QuotaOf(c, op)
    ensures AllOk(Replies(c, pool, Early(op, e, k)))
    ensures Slot(Run(c, pool, Early(op, e, k)), Name(op)) == Held(c, op, -Debt(rho, k), Later(op.now, e, k))
    decreases k
  {
    if k == 0 {
    } else {
      var before, x := Early(op, e, k - 1), op.(now := Later(op.now, e, k));
      EarlyAdmitted(c, pool, op, e, rho, k - 1);
      HeldLevel(c, Run(c, pool, before), x, -Debt(rho, k - 1), e);
      OneCall(c, Run(c, pool, before), x);
      BothOk(c, pool, before, [x]);
      RunConcat(c, pool, before, [x]);
    }
  }

  /** The early calls after a first full burst. */
  function EarlyRun(c: Config, op: Op, k: nat): seq<Op>
    requires op.Call? && QuotaOf(c, op) > 0
  {
    Repeat(op, QuotaOf(c, op)) + Early(op, MINUTE / QuotaOf(c, op), k)
  }

  function EarlyEnd(c: Config, op: Op, k: nat): int
    requires op.Call? && QuotaOf(c, op) > 0
  {
    Later(op.now, MINUTE / QuotaOf(c, op), k)
  }

  lemma EarlyRunShape(c: Config, op: Op, k: nat)
    requires op.Call? && QuotaOf(c, op) > 0
    ensures var ops := EarlyRun(c, op, k);
            && Within(ops, op.now, EarlyEnd(c, op, k)) && AllAlone(op, ops) && Unswept(ops) == ops
            && Calls(ops) == QuotaOf(c, op) + k
  {
    var q, e := QuotaOf(c, op), MINUTE / QuotaOf(c, op);
    RepeatWithin(op, q);
    CallsRepeat(op, q);
    EarlyShape(op, e, k);
    WithinConcat(Repeat(op, q), Early(op, e, k), op.now, op.now, EarlyEnd(c, op, k));
    CallsConcat(Repeat(op, q), Early(op, e, k));
    UnsweptConcat(Repeat(op, q), Early(op, e, k));
    AloneConcat(op, Repeat(op, q), Early(op, e, k));
  }

  lemma EarlyRunAdmitted(c: Config, pool: Pool, op: Op, k: nat)
    requires op.Call? && QuotaOf(c, op) > 0 && Slot(pool, Name(op)) == None
    requires var rho := MINUTE % QuotaOf(c, op); rho > 0 && Debt(rho, k) < QuotaOf(c, op)
    ensures AllOk(Replies(c, pool, EarlyRun(c, op, k)))
    ensures Slot(Run(c, pool, EarlyRun(c, op, k)), Name(op))
            == Held(c, op, -Debt(MINUTE % QuotaOf(c, op), k), EarlyEnd(c, op, k))
  {
    var q := QuotaOf(c, op);
    var e, rho := MINUTE / q, MINUTE % q;
    assert q * e == MINUTE - rho;
    EmptiedBurst(c, pool, op);
    EarlyAdmitted(c, Run(c, pool, Repeat(op, q)), op, e, rho, k);
    BothOk(c, pool, Repeat(op, q), Early(op, e, k));
    RunConcat(c, pool, Repeat(op, q), Early(op, e, k));
  }

  lemma RemainderOr(q: int)
    requires q > 0
    ensures Multiple(MINUTE, q) || MINUTE % q > 0
  {
    if MINUTE % q == 0 {
      assert MINUTE == Times(MINUTE / q, q);
    }
  }

  // ---- exactly when the rate bound holds ----

  /** A history, and after it a window of calls on the bucket under unchanging terms. */
  ghost predicate Window(c: Config, before: seq<Op>, ops: seq<Op>, k: string, plan: Plan, q: int,
                         start: int, now: int, end: int)
  {
    && start <= now <= end && Ordered(before, start) && Until(before, now)
    && Ordered(ops, now) && Until(ops, end) && Steady(c, ops, k, plan, q)
  }

  /** Over every run, at most q + q*d/MINUTE calls in d nanoseconds. */
  ghost predicate RateHolds(c: Config, k: string, plan: Plan, q: int) {
    forall before, ops, start, now, end | Window(c, before, ops, k, plan, q, start, now, end) ::
      CountOk(RepliesAt(c, Run(c, map[], before), ops, k)) * MINUTE <= q * MINUTE + q * (end - now)
  }

  /** Over every run, a bucket of this quota holds no less than nothing. */
  ghost predicate TokensHold(c: Config, k: string, q: int) {
    forall ops, start, now | start <= now && Ordered(ops, start) && Until(ops, now) ::
      var slot := Slot(Run(c, map[], ops), k);
      slot.Some? && slot.value.perMinute == q ==> slot.value.tokens >= 0
  }

  lemma RateHoldsIf(c: Config, k: string, plan: Plan, q: int)
    requires q > 0 && Multiple(MINUTE, q) && c.idleTTL + 1 >= MINUTE
    ensures RateHolds(c, k, plan, q)
  {
    forall before, ops, start, now, end | Window(c, before, ops, k, plan, q, start, now, end)
      ensures CountOk(RepliesAt(c, Run(c, map[], before), ops, k)) * MINUTE <= q * MINUTE + q * (end - now)
    {
      RateBound(c, before, ops, k, plan, q, start, now, end);
    }
  }

  lemma TokensHoldIf(c: Config, k: string, q: int)
    requires Multiple(MINUTE, q)
    ensures TokensHold(c, k, q)
  {
    forall ops, start, now | start <= now && Ordered(ops, start) && Until(ops, now)
      ensures var slot := Slot(Run(c, map[], ops), k);
              slot.Some? && slot.value.perMinute == q ==> slot.value.tokens >= 0
    {
      TokensBounded(c, ops, k, start, now);
    }
  }

  /** What a run from nothing that passes in full counts. */
  lemma FullCount(c: Config, op: Op, ops: seq<Op>, end: int)
    requires op.Call? && AllAlone(op, ops) && Within(ops, op.now, end) && AllOk(Replies(c, map[], ops))
    ensures CountOk(RepliesAt(c, Run(c, map[], []), ops, Name(op))) == Calls(ops)
    ensures Window(c, [], ops, Name(op), op.plan, QuotaOf(c, op), op.now, op.now, end)
  {
    AloneReplies(c, map[], op, ops);
    CountAll(Replies(c, map[], ops));
    ReplyEach(c, map[], ops);
    WithinOrdered(ops, op.now, end);
  }

  /** A full burst and one more call, a minute's share of nanoseconds later, rounded down: one call too many, and a
      bucket below zero. */
  lemma EarlyBeatsBound(c: Config, op: Op)
    requires op.Call? && QuotaOf(c, op) > 0 && MINUTE % QuotaOf(c, op) > 0
    ensures var q := QuotaOf(c, op); var ops := EarlyRun(c, op, 1);
            && CountOk(RepliesAt(c, Run(c, map[], []), ops, Name(op))) == q + 1
            && (q + 1) * MINUTE > q * MINUTE + q * (EarlyEnd(c, op, 1) - op.now)
            && Window(c, [], ops, Name(op), op.plan, q, op.now, op.now, EarlyEnd(c, op, 1))
            && Slot(Run(c, map[], ops), Name(op)) == Held(c, op, -(MINUTE % q), EarlyEnd(c, op, 1))
  {
    var q := QuotaOf(c, op);
    OneEarly(MINUTE % q, op.now, MINUTE / q);
    EarlyRunAdmitted(c, map[], op, 1);
    EarlyRunShape(c, op, 1);
    FullCount(c, op, EarlyRun(c, op, 1), EarlyEnd(c, op, 1));
    assert q * (MINUTE / q) == MINUTE - MINUTE % q;
  }

  // ---- evictions that can be noticed ----

  /** The first run, then a sweep as soon as it drops the bucket, then the second. */
  function EvictionRun(c: Config, first: seq<Op>, end: int, second: seq<Op>): seq<Op> {
    first + ([Sweep(end + c.idleTTL + 1)] + second)
  }

  predicate Unbroken(ops: seq<Op>, from: int, to: int) {
    Within(ops, from, to) && Unswept(ops) == ops
  }

  lemma EvictionRunShape(c: Config, op: Op, first: seq<Op>, end: int, second: seq<Op>, last: int)
    requires op.Call? && c.idleTTL > 0 && Unbroken(first, op.now, end)
    requires Unbroken(second, end + c.idleTTL + 1, last)
    ensures Within(EvictionRun(c, first, end, second), op.now, last)
    ensures Unswept(EvictionRun(c, first, end, second)) == first + second
    ensures Calls(EvictionRun(c, first, end, second)) == Calls(first) + Calls(second)
  {
    var tail := [Sweep(end + c.idleTTL + 1)] + second;
    assert tail[1..] == second;
    WithinConcat(first, tail, op.now, end, last);
    UnsweptConcat(first, tail);
    CallsConcat(first, tail);
  }

  /** If the second run passes with the bucket gone, the sweeping limiter passes all. */
  lemma SweptPasses(c: Config, op: Op, first: seq<Op>, end: int, tokens: int, second: seq<Op>)
    requires op.Call? && c.idleTTL > 0
    requires AllOk(Replies(c, map[], first)) && Slot(Run(c, map[], first), Name(op)) == Held(c, op, tokens, end)
    requires forall pool: Pool | Slot(pool, Name(op)) == None :: AllOk(Replies(c, pool, second))
    ensures AllOk(Replies(c, map[], EvictionRun(c, first, end, second)))
  {
    var sweep := Sweep(end + c.idleTTL + 1);
    SweptSlot(c, Run(c, map[], first), op, end, tokens);
    AfterSweep(c, Run(c, map[], first), sweep, second);
    BothOk(c, map[], first, [sweep] + second);
  }

  lemma SweptSlot(c: Config, pool: Pool, op: Op, end: int, tokens: int)
    requires op.Call? && Slot(pool, Name(op)) == Held(c, op, tokens, end)
    ensures Slot(Step(c, pool, Sweep(end + c.idleTTL + 1)), Name(op)) == None
  {
  }

  lemma AfterSweep(c: Config, pool: Pool, sweep: Op, rest: seq<Op>)
    requires sweep.Sweep?
    ensures Replies(c, pool, [sweep] + rest) == Replies(c, Step(c, pool, sweep), rest)
  {
    assert ([sweep] + rest)[1..] == rest;
    var all := Replies(c, Step(c, pool, sweep), rest);
    assert [] + all == all;
  }

  /** Emptied, dropped sooner than a minute, and full again too soon. */
  function SoonRun(c: Config, op: Op): seq<Op>
    requires op.Call? && QuotaOf(c, op) > 0
  {
    var burst := Repeat(op, QuotaOf(c, op));
    EvictionRun(c, burst, op.now, Repeat(op.(now := op.now + c.idleTTL + 1), QuotaOf(c, op)))
  }

  lemma SoonRunShape(c: Config, op: Op)
    requires op.Call? && QuotaOf(c, op) > 0 && c.idleTTL > 0
    ensures var again := op.(now := op.now + c.idleTTL + 1); var q := QuotaOf(c, op);
            && Within(SoonRun(c, op), op.now, again.now) && AllAlone(op, SoonRun(c, op))
            && Unswept(SoonRun(c, op)) == Repeat(op, q) + Repeat(again, q)
            && Calls(SoonRun(c, op)) == q + q
  {
    var q := QuotaOf(c, op);
    var again := op.(now := op.now + c.idleTTL + 1);
    RepeatWithin(op, q);
    RepeatWithin(again, q);
    CallsRepeat(op, q);
    CallsRepeat(again, q);
    EvictionRunShape(c, op, Repeat(op, q), op.now, Repeat(again, q), again.now);
    assert forall x | x in Repeat(again, q) :: Alone(again, x) && Alone(op, x);
    assert forall x | x in SoonRun(c, op) :: x in Repeat(op, q) || x.Sweep? || x in Repeat(again, q);
  }

  lemma SoonNoticed(c: Config, op: Op)
    requires op.Call? && QuotaOf(c, op) > 0 && 0 < c.idleTTL && c.idleTTL + 1 < MINUTE
    ensures AllOk(Replies(c, map[], SoonRun(c, op))) && !AllOk(Replies(c, map[], Unswept(SoonRun(c, op))))
  {
    var q := QuotaOf(c, op);
    var again := op.(now := op.now + c.idleTTL + 1);
    SoonRunShape(c, op);
    EmptiedBurst(c, map[], op);
    forall pool: Pool | Slot(pool, Name(op)) == None
      ensures AllOk(Replies(c, pool, Repeat(again, q)))
    {
      EmptiedBurst(c, pool, again);
    }
    SweptPasses(c, op, Repeat(op, q), op.now, 0, Repeat(again, q));
    BothOk(c, map[], Repeat(op, q), Repeat(again, q));
    KeptBurst(c, Run(c, map[], Repeat(op, q)), op, again);
  }

  lemma KeptBurst(c: Config, pool: Pool, op: Op, again: Op)
    requires op.Call? && QuotaOf(c, op) > 0 && again == op.(now := op.now + c.idleTTL + 1)
    requires 0 < c.idleTTL && c.idleTTL + 1 < MINUTE
    requires Slot(pool, Name(op)) == Some(Bucket(op.plan, QuotaOf(c, op), 0, op.now, op.now))
    ensures !AllOk(Replies(c, pool, Repeat(again, QuotaOf(c, op))))
  {
    var q := QuotaOf(c, op);
    Burst(c, pool, again, q);
    NotYetFull(q, c.idleTTL + 1);
  }

  lemma NotYetFull(q: int, e: int)
    requires q > 0 && 0 <= e < MINUTE
    ensures 0 <= q * e <= Full(q) - q
  {
    var x := MINUTE - 1 - e;
    assert q * x >= 0 && q * e == q * (MINUTE - 1) - q * x;
  }

  /** A debt within one remainder of a whole refill. */
  lemma DebtNear(rho: nat, q: int, k: nat) returns (n: nat)
    requires 0 < rho < q && Debt(rho, k) < q
    ensures q - rho <= Debt(rho, n) < q
    decreases q - Debt(rho, k)
  {
    if Debt(rho, k) >= q - rho {
      n := k;
    } else {
      assert Debt(rho, k + 1) == Debt(rho, k) + rho;
      n := DebtNear(rho, q, k + 1);
    }
  }

  /** Kept for exactly a minute, an indebted bucket is short of a full one by its debt: a full burst and an early
      call pass only if it was dropped. */
  function DebtRun(c: Config, op: Op, k: nat): seq<Op>
    requires op.Call? && QuotaOf(c, op) > 0
  {
    EvictionRun(c, EarlyRun(c, op, k), EarlyEnd(c, op, k), EarlyRun(c, Again(c, op, k), 1))
  }

  function Again(c: Config, op: Op, k: nat): (again: Op)
    requires op.Call? && QuotaOf(c, op) > 0
    ensures again.Call? && QuotaOf(c, again) == QuotaOf(c, op) && Name(again) == Name(op)
  {
    op.(now := EarlyEnd(c, op, k) + c.idleTTL + 1)
  }

  /** With its debt, the bucket takes the burst and refuses the call after it. */
  lemma IndebtedRefuses(c: Config, pool: Pool, op: Op, debt: int)
    requires op.Call? && QuotaOf(c, op) > 0 && MINUTE % QuotaOf(c, op) > 0
    requires Slot(pool, Name(op)) == Held(c, op, -debt, op.now - MINUTE)
    requires QuotaOf(c, op) - MINUTE % QuotaOf(c, op) <= debt < QuotaOf(c, op)
    ensures !AllOk(Replies(c, pool, EarlyRun(c, op, 1)))
  {
    var q := QuotaOf(c, op);
    var e := MINUTE / q;
    var burst, x := Repeat(op, q), op.(now := Later(op.now, e, 1));
    assert Early(op, e, 0) == [] && Early(op, e, 1) == [] + [x];
    HeldLevel(c, pool, op, -debt, MINUTE);
    BurstLeaves(c, pool, op, q);
    assert q * e == MINUTE - MINUTE % q && Later(op.now, e, 0) == op.now;
    HeldLevel(c, Run(c, pool, burst), x, -debt, e);
    OneCall(c, Run(c, pool, burst), x);
    BothOk(c, pool, burst, Early(op, e, 1));
  }

  lemma DebtNoticed(c: Config, op: Op, k: nat)
    requires op.Call? && QuotaOf(c, op) > 0 && c.idleTTL + 1 == MINUTE
    requires var q := QuotaOf(c, op); MINUTE % q > 0 && q - MINUTE % q <= Debt(MINUTE % q, k) < q
    ensures Within(DebtRun(c, op, k), op.now, EarlyEnd(c, Again(c, op, k), 1))
    ensures AllOk(Replies(c, map[], DebtRun(c, op, k))) && !AllOk(Replies(c, map[], Unswept(DebtRun(c, op, k))))
  {
    var q, again := QuotaOf(c, op), Again(c, op, k);
    var rho := MINUTE % q;
    var first, second := EarlyRun(c, op, k), EarlyRun(c, again, 1);
    OneEarly(rho, op.now, MINUTE / q);
    EarlyRunShape(c, op, k);
    EarlyRunShape(c, again, 1);
    EvictionRunShape(c, op, first, EarlyEnd(c, op, k), second, EarlyEnd(c, again, 1));
    EarlyRunAdmitted(c, map[], op, k);
    forall pool: Pool | Slot(pool, Name(op)) == None
      ensures AllOk(Replies(c, pool, second))
    {
      EarlyRunAdmitted(c, pool, again, 1);
    }
    SweptPasses(c, op, first, EarlyEnd(c, op, k), -Debt(rho, k), second);
    BothOk(c, map[], first, second);
    IndebtedRefuses(c, Run(c, map[], first), again, Debt(rho, k));
  }

  ghost predicate Invisible(c: Config) {
    forall ops, start | Ordered(ops, start) :: Replies(c, map[], ops) == Replies(c, map[], Unswept(ops))
  }

  lemma NoticedOnce(c: Config, ops: seq<Op>, start: int, end: int)
    requires Within(ops, start, end)
    requires AllOk(Replies(c, map[], ops)) && !AllOk(Replies(c, map[], Unswept(ops)))
    ensures !Invisible(c)
  {
    WithinOrdered(ops, start, end);
    assert Ordered(ops, start) && Replies(c, map[], ops) != Replies(c, map[], Unswept(ops));
  }

  /** For a table that limits anything at all, eviction is invisible over every run if and only if buckets are kept
      for a minute; or for one nanosecond less, if every quota divides a minute. */
  lemma InvisibleIff(c: Config, op: Op)
    requires c.idleTTL > 0 && op.Call? && QuotaOf(c, op) > 0
    ensures Invisible(c) <==> c.idleTTL >= MINUTE || (c.idleTTL + 1 == MINUTE && Whole(c))
  {
    if Patient(c) {
      forall ops, start | Ordered(ops, start)
        ensures Replies(c, map[], ops) == Replies(c, map[], Unswept(ops))
      {
        EvictionInvisible(c, ops, start);
      }
    } else if c.idleTTL + 1 < MINUTE {
      SoonRunShape(c, op);
      SoonNoticed(c, op);
      NoticedOnce(c, SoonRun(c, op), op.now, op.now + c.idleTTL + 1);
    } else {
      NotWholeNoticed(c);
    }
  }

  lemma NotWholeNoticed(c: Config)
    requires c.idleTTL + 1 == MINUTE && !Whole(c)
    ensures !Invisible(c)
  {
    var plan, scope, cat :| !Divides(QuotaFor(c.quotas, plan, scope, cat));
    var op := Call(scope, "", plan, cat, 0);
    var q := QuotaOf(c, op);
    RemainderOr(q);
    assert Debt(MINUTE % q, 0) == 0;
    var k := DebtNear(MINUTE % q, q, 0);
    DebtNoticed(c, op, k);
    NoticedOnce(c, DebtRun(c, op, k), op.now, EarlyEnd(c, Again(c, op, k), 1));
  }

  // ---- the rate bound, both ways ----

  /** Dropped too soon, an emptied bucket admits two bursts within less than a minute. */
  lemma SoonBeatsBound(c: Config, op: Op)
    requires op.Call? && QuotaOf(c, op) > 0 && 0 < c.idleTTL && c.idleTTL + 1 < MINUTE
    ensures var q := QuotaOf(c, op); var ops := SoonRun(c, op); var end := op.now + c.idleTTL + 1;
            && Window(c, [], ops, Name(op), op.plan, q, op.now, op.now, end)
            && CountOk(RepliesAt(c, Run(c, map[], []), ops, Name(op))) == q + q
            && (q + q) * MINUTE > q * MINUTE + q * (end - op.now)
  {
    SoonRunShape(c, op);
    SoonNoticed(c, op);
    FullCount(c, op, SoonRun(c, op), op.now + c.idleTTL + 1);
    NotYetFull(QuotaOf(c, op), c.idleTTL + 1);
  }

  lemma Beaten(c: Config, ops: seq<Op>, k: string, plan: Plan, q: int, now: int, end: int)
    requires Window(c, [], ops, k, plan, q, now, now, end)
    requires CountOk(RepliesAt(c, Run(c, map[], []), ops, k)) * MINUTE > q * MINUTE + q * (end - now)
    ensures !RateHolds(c, k, plan, q)
  {
  }

  /** The bound of q + q*d/MINUTE calls in d nanoseconds holds over every run if and only if the quota divides a minute
      and buckets are kept for a minute, less a nanosecond. */
  lemma RateBoundIff(c: Config, op: Op)
    requires c.idleTTL > 0 && op.Call? && QuotaOf(c, op) > 0
    ensures RateHolds(c, Name(op), op.plan, QuotaOf(c, op)) <==>
            Multiple(MINUTE, QuotaOf(c, op)) && c.idleTTL + 1 >= MINUTE
  {
    var q := QuotaOf(c, op);
    if Multiple(MINUTE, q) && c.idleTTL + 1 >= MINUTE {
      RateHoldsIf(c, Name(op), op.plan, q);
    } else if c.idleTTL + 1 < MINUTE {
      SoonBeatsBound(c, op);
      Beaten(c, SoonRun(c, op), Name(op), op.plan, q, op.now, op.now + c.idleTTL + 1);
    } else {
      RemainderOr(q);
      EarlyBeatsBound(c, op);
      Beaten(c, EarlyRun(c, op, 1), Name(op), op.plan, q, op.now, EarlyEnd(c, op, 1));
    }
  }

  /** And a bucket never falls below zero, over every run, if and only if its quota divides a minute. */
  lemma TokensIff(c: Config, op: Op)
    requires op.Call? && QuotaOf(c, op) > 0
    ensures TokensHold(c, Name(op), QuotaOf(c, op)) <==> Multiple(MINUTE, QuotaOf(c, op))
  {
    var q := QuotaOf(c, op);
    if Multiple(MINUTE, q) {
      TokensHoldIf(c, Name(op), q);
    } else {
      RemainderOr(q);
      EarlyBeatsBound(c, op);
      assert !TokensHold(c, Name(op), q);
    }
  }
}
