/** The token-bucket pool behind the request rate limits. Time is in nanoseconds. Tokens are counted in units of
    1/MINUTE, so that a quota of q requests a minute refills exactly q units a nanosecond. */
module RateLimit {
  import opened Bytes

  const MINUTE: int := 60_000_000_000
  const DAY: int := 1440 * MINUTE

  type Plan = string

  datatype Scope = PerToken | PerTeam

  datatype Category = Read | Write | PreviewCreate

  // ---- quotas ----

  /** Requests a minute; zero or less is no limit. */
  datatype PlanQuotas =
    PlanQuotas(tokenRead: int, tokenWrite: int, tokenPreview: int, teamWrite: int, teamPreview: int)

  type Quotas = map<Plan, PlanQuotas>

  const FREE: Plan := "free"

  function DefaultPlanQuotas(): Quotas {
    map[FREE := PlanQuotas(300, 30, 10, 60, 10),
        "starter" := PlanQuotas(600, 60, 30, 300, 30),
        "pro" := PlanQuotas(2400, 240, 120, 1200, 120),
        "team" := PlanQuotas(6000, 600, 300, 3000, 300)]
  }

  /** An unknown plan gets the free tier; a cell nobody lists has no limit. */
  function QuotaFor(quotas: Quotas, plan: Plan, scope: Scope, cat: Category): int {
    var tier := if plan in quotas then quotas[plan]
                else if FREE in quotas then quotas[FREE]
                else PlanQuotas(0, 0, 0, 0, 0);
    match (scope, cat)
    case (PerToken, Read) => tier.tokenRead
    case (PerToken, Write) => tier.tokenWrite
    case (PerToken, PreviewCreate) => tier.tokenPreview
    case (PerTeam, Write) => tier.teamWrite
    case (PerTeam, PreviewCreate) => tier.teamPreview
    case (PerTeam, Read) => 0
  }

  // ---- one bucket ----

  datatype Bucket = Bucket(plan: Plan, perMinute: int, tokens: int, last: int, lastUse: int)

  function Full(q: int): int {
    q * MINUTE
  }

  function Fresh(plan: Plan, q: int, now: int): Bucket {
    Bucket(plan, q, Full(q), now, now)
  }

  /** A token may be taken up to one nanosecond early, so the count can dip just below zero. */
  predicate Sound(b: Bucket) {
    && b.perMinute > 0
    && -b.perMinute < b.tokens <= Full(b.perMinute)
    && b.last == b.lastUse
  }

  /** The tokens at a later time; a clock that went back refills nothing. */
  function Refill(b: Bucket, now: int): int {
    var tokens := b.tokens + b.perMinute * (if now < b.last then 0 else now - b.last);
    if tokens > Full(b.perMinute) then Full(b.perMinute) else tokens
  }

  /** The wait for a bucket that holds this much after a token is taken, cut down to whole nanoseconds. */
  function WaitFor(tokens: int, q: int): int
    requires q > 0
  {
    if tokens < 0 then -tokens / q else 0
  }

  /** ReserveN: a token is taken even from an empty bucket, at the price of a wait. */
  function Reserve(b: Bucket, now: int): Bucket {
    b.(tokens := Refill(b, now) - MINUTE, last := now)
  }

  /** CancelAt: the token goes back. */
  function Cancel(b: Bucket, now: int): Bucket {
    var tokens := Refill(b, now) + MINUTE;
    b.(tokens := if tokens > Full(b.perMinute) then Full(b.perMinute) else tokens, last := now)
  }

  /** What a call does to its bucket: it takes a token if there is one, or will be within the nanosecond;
      otherwise it only brings the refill up to date. */
  function Used(b: Bucket, now: int): Bucket {
    var t := Refill(b, now);
    b.(tokens := if t > MINUTE - b.perMinute then t - MINUTE else t, last := now, lastUse := now)
  }

  function Wait(b: Bucket, now: int): int
    requires b.perMinute > 0
  {
    WaitFor(Refill(b, now) - MINUTE, b.perMinute)
  }

  lemma WaitPositive(b: Bucket, now: int)
    requires b.perMinute > 0
    ensures Wait(b, now) > 0 <==> Refill(b, now) <= MINUTE - b.perMinute
  {
    var d := MINUTE - Refill(b, now);
    if d >= b.perMinute {
      assert d / b.perMinute >= 1;
    }
  }

  lemma ReserveCancel(b: Bucket, now: int)
    requires b.perMinute > 0
    ensures Wait(b, now) > 0 ==> Cancel(Reserve(b, now), now).(lastUse := now) == Used(b, now)
    ensures Wait(b, now) <= 0 ==> Reserve(b, now).(lastUse := now) == Used(b, now)
  {
    WaitPositive(b, now);
  }

  lemma UsedSound(b: Bucket, now: int)
    requires Sound(b)
    ensures Sound(Used(b, now))
  {
    if now >= b.last {
      assert b.perMinute * (now - b.last) >= 0;
    }
  }

  /** The wait a denied caller is told is exact: the same call succeeds after it, and not before. */
  lemma RetryExact(b: Bucket, now: int, later: int)
    requires Sound(b) && now <= later && Wait(b, now) > 0
    ensures Wait(Used(b, now), later) == 0 <==> later >= now + Wait(b, now)
    ensures Used(Used(b, now), later).tokens < Refill(Used(b, now), later) <==> later >= now + Wait(b, now)
  {
    WaitPositive(b, now);
    WaitPositive(Used(b, now), later);
    UsedSound(b, now);
    WaitCovers(MINUTE - Refill(b, now), b.perMinute, later - now);
  }

  lemma WaitCovers(d: int, q: int, e: nat)
    requires d >= q > 0
    ensures d - q * e < q <==> e >= d / q
  {
    Covers(d / q, d % q, q, e);
  }

  lemma Covers(w: int, r: int, q: int, e: nat)
    requires 0 <= r < q
    ensures q * w + r - q * e < q <==> e >= w
  {
    var x := w - e;
    assert q * w - q * e == q * x;
    assert x >= 1 ==> q * x >= q;
    assert x <= 0 ==> q * x <= 0;
  }

  /** Looking at a bucket in between changes nothing. */
  lemma RefillAdds(b: Bucket, now: int, later: int)
    requires b.perMinute > 0 && b.last <= now <= later
    ensures var t := Refill(b, now) + b.perMinute * (later - now);
            Refill(b, later) == if t > Full(b.perMinute) then Full(b.perMinute) else t
    ensures Refill(b, later) >= Refill(b, now)
  {
    assert b.perMinute * (later - b.last) == b.perMinute * (now - b.last) + b.perMinute * (later - now);
    assert b.perMinute * (later - now) >= 0;
  }

  // ---- bucket names ----

  function ScopeText(scope: Scope): string {
    match scope
    case PerToken => "per_token"
    case PerTeam => "per_team"
  }

  function CategoryText(cat: Category): string {
    match cat
    case Read => "read"
    case Write => "write"
    case PreviewCreate => "preview_create"
  }

  function KeyPrefix(scope: Scope, key: string): string {
    ScopeText(scope) + "|" + key + "|"
  }

  function BucketKey(scope: Scope, key: string, cat: Category): string {
    KeyPrefix(scope, key) + CategoryText(cat)
  }

  predicate HasPrefix(s: string, p: string) {
    |p| <= |s| && s[..|p|] == p
  }

  function Tail(key: string, cat: Category): string {
    key + "|" + CategoryText(cat)
  }

  lemma PrefixCancels(h: string, t: string, p: string)
    ensures HasPrefix(h + t, h + p) <==> HasPrefix(t, p)
  {
    if |p| <= |t| {
      assert (h + t)[..|h + p|] == h + t[..|p|];
      assert (h + t[..|p|])[|h|..] == t[..|p|] && (h + p)[|h|..] == p;
    }
  }

  /** Where a bucket's scope and the rest of its name can be read off. */
  lemma ScopeFirst(scope: Scope, key: string, cat: Category, p: string)
    ensures var h := ScopeText(scope) + "|"; var k := BucketKey(scope, key, cat);
            && k == h + Tail(key, cat) && |h| > 6
            && h[6] == (if scope == PerToken then 'k' else 'a')
            && (HasPrefix(k, KeyPrefix(scope, p)) <==> HasPrefix(Tail(key, cat), p + "|"))
  {
    var h := ScopeText(scope) + "|";
    assert BucketKey(scope, key, cat) == h + Tail(key, cat);
    assert KeyPrefix(scope, p) == h + (p + "|");
    PrefixCancels(h, Tail(key, cat), p + "|");
  }

  /** The last bar of a bucket name is the one before its category. */
  lemma LastBar(key: string, cat: Category)
    ensures var t := Tail(key, cat); |t| > |key| && t[..|key|] == key && t[|key|] == '|'
    ensures var t := Tail(key, cat); t[|key| + 1..] == CategoryText(cat)
    ensures var t := Tail(key, cat); forall i | |key| < i < |t| :: t[i] != '|'
  {
    var t := Tail(key, cat);
    forall i | |key| < i < |t| ensures t[i] != '|' {
      assert t[i] == CategoryText(cat)[i - |key| - 1];
    }
  }

  lemma TailPrefix(key: string, cat: Category, p: string)
    ensures HasPrefix(Tail(key, cat), p + "|") <==> p == key || HasPrefix(key, p + "|")
  {
    var tail, t := Tail(key, cat), p + "|";
    LastBar(key, cat);
    if |t| <= |tail| {
      assert tail[..|t|] == t ==> tail[..|t|][|p|] == tail[|p|] == '|';
      if |p| == |key| {
        assert tail[..|t|] == key + "|";
        assert t[..|p|] == p && (key + "|")[..|p|] == key;
      } else if |p| < |key| {
        assert tail[..|t|] == key[..|t|];
      }
    }
  }

  lemma TailInjective(key: string, cat: Category, key': string, cat': Category)
    requires Tail(key, cat) == Tail(key', cat')
    ensures key == key' && cat == cat'
  {
    LastBar(key, cat);
    LastBar(key', cat');
  }

  /** No two (scope, key, category) triples share a bucket. */
  lemma BucketKeyInjective(scope: Scope, key: string, cat: Category, scope': Scope, key': string, cat': Category)
    ensures BucketKey(scope, key, cat) == BucketKey(scope', key', cat') <==>
            scope == scope' && key == key' && cat == cat'
  {
    ScopeFirst(scope, key, cat, "");
    ScopeFirst(scope', key', cat', "");
    var k, k' := BucketKey(scope, key, cat), BucketKey(scope', key', cat');
    if k == k' {
      assert k[6] == (ScopeText(scope) + "|")[6] && k'[6] == (ScopeText(scope') + "|")[6];
      assert k[|ScopeText(scope)| + 1..] == Tail(key, cat) && k'[|ScopeText(scope')| + 1..] == Tail(key', cat');
      TailInjective(key, cat, key', cat');
    }
  }

  /** InvalidateKey drops the buckets of its key in every category, and those of keys that extend it by a bar. */
  lemma InvalidateReach(scope: Scope, key: string, scope': Scope, key': string, cat: Category)
    ensures HasPrefix(BucketKey(scope', key', cat), KeyPrefix(scope, key)) <==>
            scope' == scope && (key' == key || HasPrefix(key', key + "|"))
  {
    var k, p := BucketKey(scope', key', cat), KeyPrefix(scope, key);
    ScopeFirst(scope', key', cat, key);
    ScopeFirst(scope, "", cat, "");
    TailPrefix(key', cat, key);
    assert k[6] == (ScopeText(scope') + "|")[6] && p[6] == (ScopeText(scope) + "|")[6];
    assert HasPrefix(k, p) ==> k[..|p|][6] == k[6];
  }

  // ---- the pool ----

  type Pool = map<string, Bucket>

  datatype Config = Config(quotas: Quotas, idleTTL: int)

  datatype Op =
    | Call(scope: Scope, key: string, plan: Plan, cat: Category, now: int)
    | Sweep(now: int)
    | Invalidate(scope: Scope, key: string)

  datatype Reply = Reply(ok: bool, wait: int)

  function Name(op: Op): string
    requires op.Call?
  {
    BucketKey(op.scope, op.key, op.cat)
  }

  function QuotaOf(c: Config, op: Op): int
    requires op.Call?
  {
    QuotaFor(c.quotas, op.plan, op.scope, op.cat)
  }

  function Slot(pool: Pool, k: string): Option<Bucket> {
    if k in pool then Some(pool[k]) else None
  }

  /** The bucket a call uses: a missing one, or one built for other terms, is replaced by a full one. */
  function Entry(slot: Option<Bucket>, plan: Plan, q: int, now: int): Bucket {
    if slot.Some? && slot.value.plan == plan && slot.value.perMinute == q then slot.value else Fresh(plan, q, now)
  }

  predicate Stale(b: Bucket, cutoff: int) {
    b.lastUse < cutoff
  }

  function Step(c: Config, pool: Pool, op: Op): Pool {
    match op
    case Call(_, _, plan, _, now) =>
      var q := QuotaOf(c, op);
      if q <= 0 then pool else pool[Name(op) := Used(Entry(Slot(pool, Name(op)), plan, q, now), now)]
    case Sweep(now) => map k | k in pool && !Stale(pool[k], now - c.idleTTL) :: pool[k]
    case Invalidate(scope, key) => map k | k in pool && !HasPrefix(k, KeyPrefix(scope, key)) :: pool[k]
  }

  function Answer(c: Config, slot: Option<Bucket>, op: Op): Reply
    requires op.Call?
  {
    var q := QuotaOf(c, op);
    if q <= 0 then Reply(true, 0)
    else
      var wait := Wait(Entry(slot, op.plan, q, op.now), op.now);
      Reply(wait <= 0, wait)
  }

  class Limiter {
    const config: Config
    var buckets: Pool

    constructor (quotas: Option<Quotas>, idleTTL: int)
      ensures buckets == map[] && config.idleTTL > 0
      ensures config.quotas == if quotas.Some? then quotas.value else DefaultPlanQuotas()
      ensures config.idleTTL == if idleTTL > 0 then idleTTL else DAY
    {
      config := Config(if quotas.Some? then quotas.value else DefaultPlanQuotas(), if idleTTL <= 0 then DAY else idleTTL);
      buckets := map[];
    }

    method Allow(scope: Scope, key: string, plan: Plan, cat: Category, now: int) returns (ok: bool, wait: int)
      modifies this`buckets
      ensures var op := Call(scope, key, plan, cat, now);
              && buckets == Step(config, old(buckets), op)
              && Reply(ok, wait) == Answer(config, Slot(old(buckets), Name(op)), op)
    {
      var q := QuotaFor(config.quotas, plan, scope, cat);
      if q <= 0 {
        return true, 0;
      }
      var k := BucketKey(scope, key, cat);
      var b := Fresh(plan, q, now);
      if k in buckets && buckets[k].plan == plan && buckets[k].perMinute == q {
        b := buckets[k];
      }
      ReserveCancel(b, now);
      wait := Wait(b, now);
      ok := wait <= 0;
      b := Reserve(b, now).(lastUse := now);
      if wait > 0 {
        b := Cancel(b, now);
      }
      buckets := buckets[k := b];
    }

    /** Returns how many buckets it dropped. */
    method SweepIdle(now: int) returns (removed: nat)
      modifies this`buckets
      ensures buckets == Step(config, old(buckets), Sweep(now))
      ensures removed == |old(buckets)| - |buckets|
    {
      var cutoff := now - config.idleTTL;
      var todo := buckets.Keys;
      removed := 0;
      while todo != {}
        invariant todo <= buckets.Keys <= old(buckets).Keys
        invariant forall k | k in buckets :: buckets[k] == old(buckets)[k]
        invariant forall k | k in old(buckets) && k !in todo :: k in buckets <==> !Stale(old(buckets)[k], cutoff)
        invariant removed == |old(buckets)| - |buckets|
      {
        var k :| k in todo;
        if Stale(buckets[k], cutoff) {
          assert buckets == (buckets - {k})[k := buckets[k]];
          buckets := buckets - {k};
          removed := removed + 1;
        }
        todo := todo - {k};
      }
    }

    method InvalidateKey(scope: Scope, key: string)
      modifies this`buckets
      ensures buckets == Step(config, old(buckets), Invalidate(scope, key))
    {
      var prefix := KeyPrefix(scope, key);
      var todo := buckets.Keys;
      while todo != {}
        invariant todo <= buckets.Keys <= old(buckets).Keys
        invariant forall k | k in buckets :: buckets[k] == old(buckets)[k]
        invariant forall k | k in old(buckets) && k !in todo :: k in buckets <==> !HasPrefix(k, prefix)
      {
        var k :| k in todo;
        if HasPrefix(k, prefix) {
          buckets := buckets - {k};
        }
        todo := todo - {k};
      }
    }
  }
}
