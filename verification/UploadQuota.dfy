/** Upload storage quotas. The check runs before an upload's body is read and the row is inserted after, so
    uploads in flight together can pass the same check. */
module UploadQuota {
  import opened Bytes

  type Plan = string

  const FREE: Plan := "free"
  const DAY: int := 86_400_000_000_000

  // ---- the uploads table ----

  datatype Status = Received | Pinned | Expired | GCd

  datatype Upload = Upload(
    id: string, team: string, actor: string, size: int, sha256: string, status: Status, pinnedAt: Option<int>,
    expiresAt: int, receivedAt: int, gcAt: Option<int>)

  /** Bytes that count against the cap: rows not collected yet, expired or not. */
  predicate Inert(u: Upload) {
    u.status == Received || u.status == Pinned
  }

  function InertBytes(rows: seq<Upload>, team: string): int {
    if rows == [] then 0
    else
      var u := rows[|rows| - 1];
      InertBytes(rows[..|rows| - 1], team) + if u.team == team && Inert(u) then u.size else 0
  }

  function PinnedCount(rows: seq<Upload>, team: string): nat {
    if rows == [] then 0
    else
      var u := rows[|rows| - 1];
      PinnedCount(rows[..|rows| - 1], team) + if u.team == team && u.status == Pinned then 1 else 0
  }

  function UploadsSince(rows: seq<Upload>, team: string, since: int): nat {
    if rows == [] then 0
    else
      var u := rows[|rows| - 1];
      UploadsSince(rows[..|rows| - 1], team, since) + if u.team == team && u.receivedAt >= since then 1 else 0
  }

  predicate HasId(rows: seq<Upload>, id: string) {
    exists i | 0 <= i < |rows| :: rows[i].id == id
  }

  datatype TableError = DuplicateId | UploadNotFound

  function PinRow(u: Upload, team: string, id: string, expiresAt: int, now: int): Upload {
    if u.team == team && u.id == id && u.status == Received
    then u.(status := Pinned, pinnedAt := Some(now), expiresAt := expiresAt)
    else u
  }

  function GcRow(u: Upload, id: string, now: int): Upload {
    if u.id == id && u.status != GCd then u.(status := GCd, gcAt := Some(now)) else u
  }

  function PinAll(rows: seq<Upload>, team: string, id: string, expiresAt: int, now: int): (next: seq<Upload>)
    ensures |next| == |rows|
    ensures forall i | 0 <= i < |rows| :: next[i] == PinRow(rows[i], team, id, expiresAt, now)
  {
    seq(|rows|, i requires 0 <= i < |rows| => PinRow(rows[i], team, id, expiresAt, now))
  }

  function GcAll(rows: seq<Upload>, id: string, now: int): (next: seq<Upload>)
    ensures |next| == |rows|
    ensures forall i | 0 <= i < |rows| :: next[i] == GcRow(rows[i], id, now)
  {
    seq(|rows|, i requires 0 <= i < |rows| => GcRow(rows[i], id, now))
  }

  function NewUpload(id: string, team: string, actor: string, size: int, sha256: string, expiresAt: int, now: int)
    : Upload
  {
    Upload(id, team, actor, size, sha256, Received, None, expiresAt, now, None)
  }

  function InsertRow(rows: seq<Upload>, u: Upload): seq<Upload> {
    if HasId(rows, u.id) then rows else rows + [u]
  }

  class UploadTable {
    var rows: seq<Upload>

    constructor ()
      ensures rows == []
    {
      rows := [];
    }

    method InsertUpload(u: Upload) returns (r: Result<(), TableError>)
      modifies this
      ensures rows == InsertRow(old(rows), u)
      ensures r == if HasId(old(rows), u.id) then Err(DuplicateId) else Ok(())
    {
      for i := 0 to |rows|
        invariant rows == old(rows) && forall k | 0 <= k < i :: rows[k].id != u.id
      {
        if rows[i].id == u.id {
          return Err(DuplicateId);
        }
      }
      rows := rows + [u];
      return Ok(());
    }

    /** Pins a received row; any other reports "not found", whatever the reason. */
    method PinUpload(team: string, id: string, expiresAt: int, now: int) returns (r: Result<(), TableError>)
      modifies this
      ensures rows == PinAll(old(rows), team, id, expiresAt, now)
      ensures r == if exists i | 0 <= i < |old(rows)| ::
                        old(rows)[i].team == team && old(rows)[i].id == id && old(rows)[i].status == Received
                   then Ok(()) else Err(UploadNotFound)
      ensures |rows| == |old(rows)|
      ensures forall i | 0 <= i < |rows| :: var u := old(rows)[i];
                rows[i] == if u.team == team && u.id == id && u.status == Received
                           then Upload(u.id, u.team, u.actor, u.size, u.sha256, Pinned, Some(now), expiresAt,
                                       u.receivedAt, u.gcAt)
                           else u
    {
      var next: seq<Upload> := [];
      r := Err(UploadNotFound);
      while |next| < |rows|
        invariant rows == old(rows) && |next| <= |rows|
        invariant forall k | 0 <= k < |next| :: next[k] == PinRow(rows[k], team, id, expiresAt, now)
        invariant r == if exists k | 0 <= k < |next| ::
                            rows[k].team == team && rows[k].id == id && rows[k].status == Received
                       then Ok(()) else Err(UploadNotFound)
      {
        var u := rows[|next|];
        if u.team == team && u.id == id && u.status == Received {
          next := next + [u.(status := Pinned, pinnedAt := Some(now), expiresAt := expiresAt)];
          r := Ok(());
        } else {
          next := next + [u];
        }
      }
      assert next == PinAll(rows, team, id, expiresAt, now);
      rows := next;
    }

    method MarkUploadGCd(id: string, now: int)
      modifies this
      ensures rows == GcAll(old(rows), id, now)
      ensures |rows| == |old(rows)|
      ensures forall i | 0 <= i < |rows| :: var u := old(rows)[i];
                rows[i] == if u.id == id && u.status != GCd
                           then Upload(u.id, u.team, u.actor, u.size, u.sha256, GCd, u.pinnedAt, u.expiresAt,
                                       u.receivedAt, Some(now))
                           else u
    {
      var next: seq<Upload> := [];
      while |next| < |rows|
        invariant rows == old(rows) && |next| <= |rows|
        invariant forall k | 0 <= k < |next| :: next[k] == GcRow(rows[k], id, now)
      {
        var u := rows[|next|];
        if u.id == id && u.status != GCd {
          u := u.(status := GCd, gcAt := Some(now));
        }
        next := next + [u];
      }
      assert next == GcAll(rows, id, now);
      rows := next;
    }

    method SumInertBytesByTeam(team: string) returns (total: int)
      ensures total == InertBytes(rows, team)
    {
      total := 0;
      for i := 0 to |rows|
        invariant total == InertBytes(rows[..i], team)
      {
        assert rows[..i + 1][..i] == rows[..i];
        if rows[i].team == team && (rows[i].status == Received || rows[i].status == Pinned) {
          total := total + rows[i].size;
        }
      }
      assert rows[..|rows|] == rows;
    }
  }

  // ---- the check ----

  datatype Tier = Tier(maxInert: int, maxPinned: int, maxDaily: int)

  type Quotas = map<Plan, Tier>

  datatype Dimension = PinnedUploads | DailyUploads | InertStorage

  function TierFor(quotas: Quotas, plan: Plan): Tier {
    if plan in quotas then quotas[plan]
    else if FREE in quotas then quotas[FREE]
    else Tier(0, 0, 0)
  }

  /** No quota table means no check. The largest archive is reserved in full before the body is read. */
  function CheckUploadQuota(rows: seq<Upload>, quotas: Option<Quotas>, team: string, plan: Plan, archive: int,
                            now: int): Result<(), Dimension>
  {
    if quotas.None? then Ok(())
    else
      var tier := TierFor(quotas.value, plan);
      if PinnedCount(rows, team) >= tier.maxPinned then Err(PinnedUploads)
      else if UploadsSince(rows, team, now - DAY) >= tier.maxDaily then Err(DailyUploads)
      else if InertBytes(rows, team) + archive > tier.maxInert then Err(InertStorage)
      else Ok(())
  }

  /** Without a tier for the plan or the free plan nothing is admitted: the pinned cap of zero turns every upload
      away, before the bytes are looked at. */
  lemma NoTierRejectsAll(rows: seq<Upload>, quotas: Quotas, team: string, plan: Plan, archive: int, now: int)
    requires plan !in quotas && FREE !in quotas
    ensures CheckUploadQuota(rows, Some(quotas), team, plan, archive, now) == Err(PinnedUploads)
  {
  }

  // ---- uploads in flight ----

  /** Plans do not change during a run; no stored archive is larger than the reservation. */
  datatype Config = Config(quotas: Quotas, plans: map<string, Plan>, archive: nat)

  /** The table, and for each team how many uploads have passed the check and not been recorded yet. */
  datatype State = State(rows: seq<Upload>, flights: multiset<string>)

  datatype Act =
    | Check(team: string)
    | Insert(u: Upload)
    | GiveUp(team: string)
    | Pin(team: string, id: string, expiresAt: int)
    | Collect(id: string)

  datatype Event = Event(act: Act, now: int)

  function PlanOf(c: Config, team: string): Plan {
    if team in c.plans then c.plans[team] else FREE
  }

  function Cap(c: Config, team: string): int {
    TierFor(c.quotas, PlanOf(c, team)).maxInert
  }

  predicate Passes(c: Config, s: State, team: string, now: int) {
    CheckUploadQuota(s.rows, Some(c.quotas), team, PlanOf(c, team), c.archive, now).Ok?
  }

  /** Only an upload that has passed its check is recorded or given up, and recorded as received. */
  predicate Enabled(c: Config, s: State, act: Act) {
    match act
    case Insert(u) => s.flights[u.team] > 0 && 0 <= u.size <= c.archive && u.status == Received
    case GiveUp(team) => s.flights[team] > 0
    case _ => true
  }

  function Step(c: Config, s: State, act: Act, now: int): State {
    match act
    case Check(team) => if Passes(c, s, team, now) then s.(flights := s.flights + multiset{team}) else s
    case Insert(u) => State(InsertRow(s.rows, u), s.flights - multiset{u.team})
    case GiveUp(team) => s.(flights := s.flights - multiset{team})
    case Pin(team, id, expiresAt) => s.(rows := PinAll(s.rows, team, id, expiresAt, now))
    case Collect(id) => s.(rows := GcAll(s.rows, id, now))
  }

  function Run(c: Config, s: State, events: seq<Event>): State
    decreases |events|
  {
    if events == [] then s else Run(c, Step(c, s, events[0].act, events[0].now), events[1..])
  }

  /** Every act is enabled, and a team never has more than k uploads in flight. */
  predicate Overlap(c: Config, s: State, events: seq<Event>, team: string, k: nat)
    decreases |events|
  {
    && s.flights[team] <= k
    && (events == [] ||
        (Enabled(c, s, events[0].act)
         && Overlap(c, Step(c, s, events[0].act, events[0].now), events[1..], team, k)))
  }

  // ---- the overshoot ----

  predicate Sizes(rows: seq<Upload>) {
    forall i | 0 <= i < |rows| :: rows[i].size >= 0
  }

  lemma {:induction false} PinKeepsBytes(rows: seq<Upload>, team: string, id: string, expiresAt: int, now: int,
                                         t: string)
    ensures InertBytes(PinAll(rows, team, id, expiresAt, now), t) == InertBytes(rows, t)
  {
    if rows == [] {
    } else {
      var front := rows[..|rows| - 1];
      PinKeepsBytes(front, team, id, expiresAt, now, t);
      assert PinAll(rows, team, id, expiresAt, now)[..|front|] == PinAll(front, team, id, expiresAt, now);
    }
  }

  lemma {:induction false} CollectFrees(rows: seq<Upload>, id: string, now: int, t: string)
    requires Sizes(rows)
    ensures InertBytes(GcAll(rows, id, now), t) <= InertBytes(rows, t)
  {
    if rows == [] {
    } else {
      var front := rows[..|rows| - 1];
      CollectFrees(front, id, now, t);
      assert GcAll(rows, id, now)[..|front|] == GcAll(front, id, now);
    }
  }

  /** n archives. */
  function Archives(n: nat, m: nat): nat {
    if n == 0 then 0 else Archives(n - 1, m) + m
  }

  lemma {:induction false} ArchivesIs(n: nat, m: nat)
    ensures Archives(n, m) == n * m
  {
    if n == 0 {
    } else {
      ArchivesIs(n - 1, m);
    }
  }

  lemma {:induction false} ArchivesMore(n: nat, k: nat, m: nat)
    requires n <= k
    ensures Archives(n, m) <= Archives(k, m)
  {
    if n < k {
      ArchivesMore(n, k - 1, m);
    }
  }

  /** What every step keeps: the bytes held, with an archive reserved for each upload in flight. */
  ghost predicate Within(c: Config, s: State, team: string, k: nat) {
    && Sizes(s.rows)
    && InertBytes(s.rows, team) + Archives(s.flights[team], c.archive)
       <= Cap(c, team) + Archives(k, c.archive) - c.archive
  }

  lemma InsertWithin(c: Config, s: State, u: Upload, now: int, team: string, k: nat)
    requires Within(c, s, team, k) && Enabled(c, s, Insert(u))
    ensures Within(c, Step(c, s, Insert(u), now), team, k)
  {
    assert (s.rows + [u])[..|s.rows|] == s.rows;
  }

  lemma StepWithin(c: Config, s: State, act: Act, now: int, team: string, k: nat)
    requires Within(c, s, team, k) && Enabled(c, s, act)
    requires Step(c, s, act, now).flights[team] <= k
    ensures Within(c, Step(c, s, act, now), team, k)
  {
    match act
    case Check(t) => ArchivesMore(Step(c, s, act, now).flights[team], k, c.archive);
    case Insert(u) => InsertWithin(c, s, u, now, team, k);
    case GiveUp(t) =>
    case Pin(t, id, expiresAt) => PinKeepsBytes(s.rows, t, id, expiresAt, now, team);
    case Collect(id) => CollectFrees(s.rows, id, now, team);
  }

  lemma {:induction false} RunWithin(c: Config, s: State, events: seq<Event>, team: string, k: nat)
    requires Within(c, s, team, k) && Overlap(c, s, events, team, k)
    ensures Within(c, Run(c, s, events), team, k)
    decreases |events|
  {
    if events == [] {
    } else {
      StepWithin(c, s, events[0].act, events[0].now, team, k);
      RunWithin(c, Step(c, s, events[0].act, events[0].now), events[1..], team, k);
    }
  }

  const EMPTY := State([], multiset{})

  /** With at most k uploads between check and insert, a team never holds more than k - 1 archives over its cap;
      one at a time, never more than the cap. Checks, inserts, pins, collections and failures may interleave in
      any order, with other teams' too. */
  lemma OvershootBound(c: Config, events: seq<Event>, team: string, k: nat)
    requires k > 0 && Cap(c, team) >= 0 && Overlap(c, EMPTY, events, team, k)
    ensures InertBytes(Run(c, EMPTY, events).rows, team) <= Cap(c, team) + (k - 1) * c.archive
    ensures k == 1 ==> InertBytes(Run(c, EMPTY, events).rows, team) <= Cap(c, team)
  {
    ArchivesIs(k - 1, c.archive);
    RunWithin(c, EMPTY, events, team, k);
  }

  // ---- the bound is attained ----

  function Checks(team: string, k: nat, now: int): seq<Event> {
    if k == 0 then [] else [Event(Check(team), now)] + Checks(team, k - 1, now)
  }

  function Inserts(us: seq<Upload>, now: int): seq<Event> {
    if us == [] then [] else [Event(Insert(us[0]), now)] + Inserts(us[1..], now)
  }

  lemma {:induction false} RunConcat(c: Config, s: State, a: seq<Event>, b: seq<Event>, team: string, k: nat)
    ensures Run(c, s, a + b) == Run(c, Run(c, s, a), b)
    ensures Overlap(c, s, a, team, k) && Overlap(c, Run(c, s, a), b, team, k) ==> Overlap(c, s, a + b, team, k)
    decreases |a|
  {
    if a == [] {
      assert a + b == b;
    } else {
      assert (a + b)[1..] == a[1..] + b;
      RunConcat(c, Step(c, s, a[0].act, a[0].now), a[1..], b, team, k);
    }
  }

  function Flying(team: string, n: nat): multiset<string> {
    multiset{}[team := n]
  }

  lemma {:induction false} ChecksPass(c: Config, s: State, team: string, n: nat, k: nat, now: int)
    requires Passes(c, s, team, now) && s.flights[team] + n <= k
    ensures Run(c, s, Checks(team, n, now)) == State(s.rows, s.flights + Flying(team, n))
    ensures Overlap(c, s, Checks(team, n, now), team, k)
    decreases n
  {
    if n > 0 {
      var next := Step(c, s, Check(team), now);
      ChecksPass(c, next, team, n - 1, k, now);
      assert Checks(team, n, now)[1..] == Checks(team, n - 1, now);
      assert next.flights + Flying(team, n - 1) == s.flights + Flying(team, n);
    } else {
      assert s.flights + Flying(team, 0) == s.flights;
    }
  }

  ghost predicate NewUploads(c: Config, rows: seq<Upload>, us: seq<Upload>, team: string) {
    && (forall i | 0 <= i < |us| :: us[i].team == team && us[i].size == c.archive && us[i].status == Received)
    && (forall i | 0 <= i < |us| :: !HasId(rows, us[i].id))
    && (forall i, j | 0 <= i < j < |us| :: us[i].id != us[j].id)
  }

  lemma NewRest(c: Config, rows: seq<Upload>, us: seq<Upload>, team: string)
    requires us != [] && NewUploads(c, rows, us, team)
    ensures NewUploads(c, rows + [us[0]], us[1..], team)
  {
    forall i | 0 <= i < |us[1..]|
      ensures !HasId(rows + [us[0]], us[1..][i].id)
    {
      assert us[0].id != us[i + 1].id && !HasId(rows, us[i + 1].id);
    }
  }

  lemma {:induction false} InsertsAdd(c: Config, s: State, us: seq<Upload>, team: string, k: nat, now: int)
    requires NewUploads(c, s.rows, us, team) && |us| <= s.flights[team] <= k
    ensures InertBytes(Run(c, s, Inserts(us, now)).rows, team) == InertBytes(s.rows, team) + Archives(|us|, c.archive)
    ensures Overlap(c, s, Inserts(us, now), team, k)
    decreases |us|
  {
    if us == [] {
    } else {
      var next := Step(c, s, Insert(us[0]), now);
      assert next.rows == s.rows + [us[0]] && next.rows[..|s.rows|] == s.rows;
      assert Inserts(us, now)[1..] == Inserts(us[1..], now);
      NewRest(c, s.rows, us, team);
      InsertsAdd(c, next, us[1..], team, k, now);
    }
  }

  /** From any state with just one archive's room left, k overlapping uploads reach the bound exactly. */
  lemma {:induction false} OvershootAttained(c: Config, s: State, us: seq<Upload>, team: string, now: int)
    requires s.flights[team] == 0 && |us| > 0 && NewUploads(c, s.rows, us, team)
    requires Passes(c, s, team, now) && InertBytes(s.rows, team) == Cap(c, team) - c.archive
    ensures var events := Checks(team, |us|, now) + Inserts(us, now);
            && Overlap(c, s, events, team, |us|)
            && InertBytes(Run(c, s, events).rows, team) == Cap(c, team) + (|us| - 1) * c.archive
  {
    var k := |us|;
    var mid := Run(c, s, Checks(team, k, now));
    ChecksPass(c, s, team, k, k, now);
    InsertsAdd(c, mid, us, team, k, now);
    RunConcat(c, s, Checks(team, k, now), Inserts(us, now), team, k);
    ArchivesIs(k - 1, c.archive);
  }

  // ---- a row's life ----

  predicate Moves(a: Upload, b: Upload) {
    && b.id == a.id && b.team == a.team && b.size == a.size && b.sha256 == a.sha256 && b.receivedAt == a.receivedAt
    && (a.status == GCd ==> b == a)
    && (a.status == Pinned ==> b.status != Received && b.pinnedAt == a.pinnedAt && b.expiresAt == a.expiresAt)
  }

  /** Rows are never lost, a pin's terms never change, and a collected row is never touched again. */
  lemma {:induction false} RowsMove(c: Config, s: State, events: seq<Event>, i: nat)
    requires i < |s.rows|
    ensures |s.rows| <= |Run(c, s, events).rows| && Moves(s.rows[i], Run(c, s, events).rows[i])
    decreases |events|
  {
    if events == [] {
    } else {
      RowsMove(c, Step(c, s, events[0].act, events[0].now), events[1..], i);
    }
  }
}
