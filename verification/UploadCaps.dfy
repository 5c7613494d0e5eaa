/** What the three upload caps mean in terms of the rows of the table, and what they bound over whole runs. */
module UploadCaps {
  import opened Bytes
  import opened UploadQuota

  // ---- when each cap refuses ----

  /** The team's pinned rows. */
  function PinnedRows(rows: seq<Upload>, team: string): set<int> {
    set i | 0 <= i < |rows| && rows[i].team == team && rows[i].status == Pinned
  }

  /** The team's rows of any status received within the day before now, its first instant included. */
  function DayRows(rows: seq<Upload>, team: string, now: int): set<int> {
    set i | 0 <= i < |rows| && rows[i].team == team && now - rows[i].receivedAt <= DAY
  }

  lemma {:induction false} PinnedCounted(rows: seq<Upload>, team: string)
    ensures PinnedCount(rows, team) == |PinnedRows(rows, team)|
  {
    if rows == [] {
    } else {
      var n := |rows| - 1;
      PinnedCounted(rows[..n], team);
      forall i
        ensures i in PinnedRows(rows, team) <==>
                i in PinnedRows(rows[..n], team) || (i == n && rows[n].team == team && rows[n].status == Pinned)
      {
      }
      assert PinnedRows(rows, team) == PinnedRows(rows[..n], team)
                                       + if rows[n].team == team && rows[n].status == Pinned then {n} else {};
    }
  }

  lemma {:induction false} DayCounted(rows: seq<Upload>, team: string, now: int)
    ensures UploadsSince(rows, team, now - DAY) == |DayRows(rows, team, now)|
  {
    if rows == [] {
    } else {
      var n := |rows| - 1;
      DayCounted(rows[..n], team, now);
      forall i
        ensures i in DayRows(rows, team, now) <==>
                i in DayRows(rows[..n], team, now)
                || (i == n && rows[n].team == team && now - rows[n].receivedAt <= DAY)
      {
      }
      assert DayRows(rows, team, now) == DayRows(rows[..n], team, now)
                                         + if rows[n].team == team && now - rows[n].receivedAt <= DAY then {n} else {};
    }
  }

  /** The first cap that is reached refuses; bytes are looked at last, with the largest archive added. */
  lemma RefusedFor(rows: seq<Upload>, quotas: Quotas, team: string, plan: Plan, archive: int, now: int)
    ensures var tier := if plan in quotas then quotas[plan] else if FREE in quotas then quotas[FREE] else Tier(0, 0, 0);
            var r := CheckUploadQuota(rows, Some(quotas), team, plan, archive, now);
            var pinned := |PinnedRows(rows, team)| >= tier.maxPinned;
            var daily := |DayRows(rows, team, now)| >= tier.maxDaily;
            && (r == Err(PinnedUploads) <==> pinned)
            && (r == Err(DailyUploads) <==> !pinned && daily)
            && (r == Err(InertStorage) <==> !pinned && !daily && tier.maxInert - InertBytes(rows, team) < archive)
  {
    PinnedCounted(rows, team);
    DayCounted(rows, team, now);
  }

  // ---- the daily cap over a run ----

  /** Times never go back, and lie within [from, to]. */
  predicate Clocked(events: seq<Event>, from: int, to: int) {
    if events == [] then from <= to else from <= events[0].now && Clocked(events[1..], events[0].now, to)
  }

  function DailyCap(c: Config, team: string): int {
    TierFor(c.quotas, PlanOf(c, team)).maxDaily
  }

  lemma {:induction false} FewerSince(rows: seq<Upload>, team: string, since: int, later: int)
    requires since <= later
    ensures UploadsSince(rows, team, later) <= UploadsSince(rows, team, since)
  {
    if rows == [] {
    } else {
      FewerSince(rows[..|rows| - 1], team, since, later);
    }
  }

  /** Rows that keep their team and time of receipt are counted alike. */
  lemma {:induction false} SameSince(rows: seq<Upload>, next: seq<Upload>, team: string, since: int)
    requires |next| == |rows|
    requires forall i | 0 <= i < |rows| :: next[i].team == rows[i].team && next[i].receivedAt == rows[i].receivedAt
    ensures UploadsSince(next, team, since) == UploadsSince(rows, team, since)
  {
    if rows == [] {
    } else {
      var n := |rows| - 1;
      SameSince(rows[..n], next[..n], team, since);
    }
  }

  /** What every step keeps: the day's uploads, with one more for each upload in flight. */
  predicate DayWithin(c: Config, s: State, team: string, k: nat, now: int) {
    UploadsSince(s.rows, team, now - DAY) + s.flights[team] < DailyCap(c, team) + k
  }

  lemma StepDay(c: Config, s: State, act: Act, now: int, team: string, k: nat)
    requires DayWithin(c, s, team, k, now) && Enabled(c, s, act)
    requires Step(c, s, act, now).flights[team] <= k
    ensures DayWithin(c, Step(c, s, act, now), team, k, now)
  {
    match act
    case Check(t) =>
    case Insert(u) => assert (s.rows + [u])[..|s.rows|] == s.rows;
    case GiveUp(t) =>
    case Pin(t, id, expiresAt) => SameSince(s.rows, PinAll(s.rows, t, id, expiresAt, now), team, now - DAY);
    case Collect(id) => SameSince(s.rows, GcAll(s.rows, id, now), team, now - DAY);
  }

  lemma {:induction false} RunDay(c: Config, s: State, events: seq<Event>, team: string, k: nat, from: int, to: int)
    requires DayWithin(c, s, team, k, from) && Overlap(c, s, events, team, k) && Clocked(events, from, to)
    ensures DayWithin(c, Run(c, s, events), team, k, to)
    decreases |events|
  {
    if events == [] {
      FewerSince(s.rows, team, from - DAY, to - DAY);
    } else {
      var now := events[0].now;
      FewerSince(s.rows, team, from - DAY, now - DAY);
      StepDay(c, s, events[0].act, now, team, k);
      RunDay(c, Step(c, s, events[0].act, now), events[1..], team, k, now, to);
    }
  }

  /** With at most k uploads between check and insert, no day of any run, wherever it ends, holds more than k - 1
      uploads over the daily cap; one at a time, never more than the cap. */
  lemma DailyBound(c: Config, events: seq<Event>, team: string, k: nat, from: int, to: int)
    requires k > 0 && DailyCap(c, team) >= 0 && Overlap(c, EMPTY, events, team, k) && Clocked(events, from, to)
    ensures |DayRows(Run(c, EMPTY, events).rows, team, to)| <= DailyCap(c, team) + (k - 1)
  {
    RunDay(c, EMPTY, events, team, k, from, to);
    DayCounted(Run(c, EMPTY, events).rows, team, to);
  }

  // ---- the pinned cap over a run ----

  /** An upload checked and recorded on its own. */
  function One(u: Upload, now: int): seq<Event> {
    [Event(Check(u.team), now), Event(Insert(u), now)]
  }

  function Each(us: seq<Upload>, now: int): seq<Event> {
    if us == [] then [] else One(us[0], now) + Each(us[1..], now)
  }

  function Pins(us: seq<Upload>, now: int): seq<Event> {
    if us == [] then [] else [Event(Pin(us[0].team, us[0].id, us[0].expiresAt), now)] + Pins(us[1..], now)
  }

  function Total(us: seq<Upload>): int {
    if us == [] then 0 else us[0].size + Total(us[1..])
  }

  /** Room under the daily and the byte cap for all of these, and under the pinned cap for one. */
  ghost predicate Room(c: Config, rows: seq<Upload>, us: seq<Upload>, team: string, now: int) {
    && (forall i | 0 <= i < |us| :: us[i].team == team && 0 <= us[i].size <= c.archive && us[i].status == Received)
    && (forall i | 0 <= i < |us| :: !HasId(rows, us[i].id))
    && (forall i, j | 0 <= i < j < |us| :: us[i].id != us[j].id)
    && PinnedCount(rows, team) < TierFor(c.quotas, PlanOf(c, team)).maxPinned
    && UploadsSince(rows, team, now - DAY) + |us| <= DailyCap(c, team)
    && InertBytes(rows, team) + Total(us) + c.archive <= Cap(c, team)
  }

  lemma RoomRest(c: Config, rows: seq<Upload>, us: seq<Upload>, team: string, now: int)
    requires us != [] && Room(c, rows, us, team, now)
    ensures Room(c, rows + [us[0]], us[1..], team, now)
  {
    assert (rows + [us[0]])[..|rows|] == rows;
    forall i | 0 <= i < |us[1..]|
      ensures !HasId(rows + [us[0]], us[1..][i].id)
    {
      assert us[0].id != us[i + 1].id && !HasId(rows, us[i + 1].id);
    }
  }

  lemma {:induction false} TotalNatural(c: Config, us: seq<Upload>)
    requires forall i | 0 <= i < |us| :: 0 <= us[i].size <= c.archive
    ensures Total(us) >= 0
  {
    if us == [] {
    } else {
      TotalNatural(c, us[1..]);
    }
  }

  predicate EachDone(c: Config, s: State, us: seq<Upload>, team: string, now: int) {
    && Run(c, s, Each(us, now)) == State(s.rows + us, s.flights)
    && Overlap(c, s, Each(us, now), team, 1)
  }

  lemma {:induction false} EachPasses(c: Config, s: State, us: seq<Upload>, team: string, now: int)
    requires s.flights[team] == 0 && Room(c, s.rows, us, team, now)
    ensures EachDone(c, s, us, team, now)
    decreases |us|
  {
    if us == [] {
      assert s.rows + us == s.rows;
    } else {
      OnePasses(c, s, us, team, now);
      EachPasses(c, State(s.rows + [us[0]], s.flights), us[1..], team, now);
      EachFirst(c, s, us, team, now);
    }
  }

  lemma EachFirst(c: Config, s: State, us: seq<Upload>, team: string, now: int)
    requires us != []
    requires var next := State(s.rows + [us[0]], s.flights);
             && Run(c, s, One(us[0], now)) == next && Overlap(c, s, One(us[0], now), team, 1)
             && EachDone(c, next, us[1..], team, now)
    ensures EachDone(c, s, us, team, now)
  {
    assert s.rows + [us[0]] + us[1..] == s.rows + us;
    RunConcat(c, s, One(us[0], now), Each(us[1..], now), team, 1);
  }

  lemma OnePasses(c: Config, s: State, us: seq<Upload>, team: string, now: int)
    requires s.flights[team] == 0 && us != [] && Room(c, s.rows, us, team, now)
    ensures Run(c, s, One(us[0], now)) == State(s.rows + [us[0]], s.flights)
    ensures Overlap(c, s, One(us[0], now), team, 1)
    ensures Room(c, s.rows + [us[0]], us[1..], team, now)
  {
    TotalNatural(c, us[1..]);
    RoomRest(c, s.rows, us, team, now);
    CheckInsert(c, s, us[0], now);
  }

  lemma CheckInsert(c: Config, s: State, u: Upload, now: int)
    requires s.flights[u.team] == 0 && !HasId(s.rows, u.id)
    requires Passes(c, s, u.team, now) && 0 <= u.size <= c.archive && u.status == Received
    ensures Run(c, s, One(u, now)) == State(s.rows + [u], s.flights)
    ensures Overlap(c, s, One(u, now), u.team, 1)
  {
    var flying := State(s.rows, s.flights + multiset{u.team});
    var done := State(s.rows + [u], s.flights);
    assert One(u, now)[1..] == [Event(Insert(u), now)] && [Event(Insert(u), now)][1..] == [];
    assert flying.flights - multiset{u.team} == s.flights;
    assert Step(c, s, Check(u.team), now) == flying && Step(c, flying, Insert(u), now) == done;
    assert Run(c, flying, [Event(Insert(u), now)]) == Run(c, done, []) == done;
  }

  lemma {:induction false} PinCounts(rows: seq<Upload>, i: nat, expiresAt: int, now: int)
    requires i < |rows| && rows[i].status == Received
    requires forall j | 0 <= j < |rows| && j != i :: rows[j].id != rows[i].id
    ensures PinnedCount(PinAll(rows, rows[i].team, rows[i].id, expiresAt, now), rows[i].team)
            == PinnedCount(rows, rows[i].team) + 1
  {
    var n, u := |rows| - 1, rows[i];
    var next := PinAll(rows, u.team, u.id, expiresAt, now);
    if i < n {
      PinCounts(rows[..n], i, expiresAt, now);
      assert next[..n] == PinAll(rows[..n], u.team, u.id, expiresAt, now);
    } else {
      assert next[..n] == rows[..n];
    }
  }

  /** Received rows of the team with ids of their own, from place b on. */
  ghost predicate Unpinned(rows: seq<Upload>, b: nat, us: seq<Upload>, team: string) {
    && b + |us| == |rows|
    && (forall i | 0 <= i < |us| ::
          rows[b + i].team == us[i].team == team && rows[b + i].id == us[i].id && rows[b + i].status == Received)
    && (forall i, j | 0 <= i < |us| && 0 <= j < |rows| && j != b + i :: rows[j].id != us[i].id)
  }

  predicate PinsDone(c: Config, s: State, us: seq<Upload>, team: string, now: int) {
    && PinnedCount(Run(c, s, Pins(us, now)).rows, team) == PinnedCount(s.rows, team) + |us|
    && Overlap(c, s, Pins(us, now), team, 1)
  }

  lemma {:induction false} PinsCount(c: Config, s: State, b: nat, us: seq<Upload>, team: string, now: int)
    requires Unpinned(s.rows, b, us, team) && s.flights[team] <= 1
    ensures PinsDone(c, s, us, team, now)
    decreases |us|
  {
    if us == [] {
    } else {
      PinFirst(s.rows, b, us, team, now);
      PinsCount(c, AfterPin(s, us[0], now), b + 1, us[1..], team, now);
      PinsFirst(c, s, us, team, now);
    }
  }

  function AfterPin(s: State, u: Upload, now: int): State {
    s.(rows := PinAll(s.rows, u.team, u.id, u.expiresAt, now))
  }

  lemma PinsFirst(c: Config, s: State, us: seq<Upload>, team: string, now: int)
    requires us != [] && s.flights[team] <= 1
    requires var next := AfterPin(s, us[0], now);
             PinnedCount(next.rows, team) == PinnedCount(s.rows, team) + 1 && PinsDone(c, next, us[1..], team, now)
    ensures PinsDone(c, s, us, team, now)
  {
    assert Pins(us, now)[1..] == Pins(us[1..], now);
  }

  lemma PinFirst(rows: seq<Upload>, b: nat, us: seq<Upload>, team: string, now: int)
    requires us != [] && Unpinned(rows, b, us, team)
    ensures var next := PinAll(rows, us[0].team, us[0].id, us[0].expiresAt, now);
            Unpinned(next, b + 1, us[1..], team) && PinnedCount(next, team) == PinnedCount(rows, team) + 1
  {
    assert rows[b + 0].id == us[0].id && rows[b + 0].team == team;
    PinCounts(rows, b, us[0].expiresAt, now);
    var next := PinAll(rows, us[0].team, us[0].id, us[0].expiresAt, now);
    forall j | b < j < |rows|
      ensures next[j] == rows[j]
    {
      assert rows[b + (j - b)].id == us[j - b].id && rows[b + (j - b)].id != us[0].id;
    }
  }

  lemma RoomUnpinned(c: Config, rows: seq<Upload>, us: seq<Upload>, team: string, now: int)
    requires Room(c, rows, us, team, now)
    ensures Unpinned(rows + us, |rows|, us, team)
  {
    var all, b := rows + us, |rows|;
    forall i, j | 0 <= i < |us| && 0 <= j < |all| && j != b + i
      ensures all[j].id != us[i].id
    {
      if j >= b {
        assert all[j] == us[j - b];
      }
    }
  }

  /** The pinned cap bounds no team's pinned rows: a pin is not checked. Whatever the cap, as many uploads as the two
      other caps leave room for can be recorded one at a time and then all be pinned. */
  lemma PinnedUnbounded(c: Config, s: State, us: seq<Upload>, team: string, now: int)
    requires s.flights[team] == 0 && Room(c, s.rows, us, team, now)
    ensures var events := Each(us, now) + Pins(us, now);
            && Overlap(c, s, events, team, 1)
            && |PinnedRows(Run(c, s, events).rows, team)| >= |us|
  {
    var mid := State(s.rows + us, s.flights);
    EachPasses(c, s, us, team, now);
    RoomUnpinned(c, s.rows, us, team, now);
    PinsCount(c, mid, |s.rows|, us, team, now);
    RunConcat(c, s, Each(us, now), Pins(us, now), team, 1);
    PinnedCounted(Run(c, s, Each(us, now) + Pins(us, now)).rows, team);
  }
}
