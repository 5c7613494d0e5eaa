/** Fetching every chain a range touches, month by month. */
module AuditMonths {
  import opened Bytes
  import opened CivilTime
  import opened Sorting
  import opened HashChain
  import opened AuditLog
  import opened AuditExport

  /** The months lo to hi, in order. */
  function MonthRange(lo: nat, hi: Month): seq<Month>
    decreases hi + 1 - lo
  {
    if lo > hi then [] else [lo] + MonthRange(lo + 1, hi)
  }

  lemma {:induction false} MonthRangeSnoc(lo: nat, hi: Month)
    requires lo <= hi
    ensures MonthRange(lo, hi) == (if hi == 0 then [] else MonthRange(lo, hi - 1)) + [hi]
    decreases hi - lo
  {
    if lo < hi {
      MonthRangeSnoc(lo + 1, hi);
    }
  }

  method MonthsInRange(since: Time, until: Time) returns (months: seq<Month>)
    ensures months == MonthRange(MonthOf(since), MonthOf(until))
  {
    var start: nat, end := MonthOf(since), MonthOf(until);
    months := [];
    if end < start {
      return;
    }
    var m: nat := start;
    while m <= end
      invariant start <= m <= end + 1
      invariant months + MonthRange(m, end) == MonthRange(start, end)
    {
      assert months + ([m as Month] + MonthRange(m + 1, end)) == (months + [m as Month]) + MonthRange(m + 1, end);
      months := months + [m];
      m := m + 1;
    }
    assert months + [] == months;
  }

  function LastSecond(m: Month): Time {
    WholeSecond(MonthLastMicro(m))
  }

  /** A whole month is always a valid export window. */
  lemma MonthBounds(teamId: Bytes, m: Month, now: Time)
    requires teamId != []
    ensures Bounds(teamId, Some(MonthStart(m)), Some(LastSecond(m)), now) == Ok((MonthStart(m), LastSecond(m)))
    ensures MonthOf(MonthStart(m)) == m && MonthOf(LastSecond(m)) == m
  {
    assert MonthOf(MonthStart(m)) == m && MonthOf(LastSecond(m)) == m;
  }

  function MonthRows(db: Db, teamId: Bytes, m: Month): seq<VerifyRow> {
    Window(RowsOf(db), teamId, MonthStart(m), LastSecond(m))
  }

  function RangeEntries(db: Db, teamId: Bytes, months: seq<Month>): seq<ExportEntry> {
    if months == [] then []
    else RangeEntries(db, teamId, months[..|months| - 1]) + Entries(MonthRows(db, teamId, months[|months| - 1]))
  }

  /** The anchor of one month, if its chain has begun. */
  function MonthChains(db: Db, teamId: Bytes, m: Month): seq<ChainSummary> {
    var k := ChainKey(teamId, m);
    if k in db.heads then [Summary(ChainHead(m, db.heads[k]))] else []
  }

  function RangeChains(db: Db, teamId: Bytes, months: seq<Month>): seq<ChainSummary> {
    if months == [] then []
    else RangeChains(db, teamId, months[..|months| - 1]) + MonthChains(db, teamId, months[|months| - 1])
  }

  /** The envelope merged from the months' exports, its row count still to be set. */
  function MergedEnvelope(db: Db, teamId: Bytes, months: seq<Month>): Envelope {
    Envelope(Manifest(if months == [] then [] else teamId, RangeChains(db, teamId, months), 0),
             RangeEntries(db, teamId, months))
  }

  function Counted(e: Envelope): Envelope {
    e.(manifest := e.manifest.(rowCount := |e.entries|))
  }

  /** What verification works on: the months' rows and anchors, in month order. */
  function RangeEnvelope(db: Db, teamId: Bytes, months: seq<Month>): Envelope {
    Counted(MergedEnvelope(db, teamId, months))
  }

  lemma {:induction false} MonthRangeAt(lo: nat, hi: Month)
    ensures |MonthRange(lo, hi)| == if lo <= hi then hi + 1 - lo else 0
    ensures forall i | 0 <= i < |MonthRange(lo, hi)| :: MonthRange(lo, hi)[i] == lo + i
    decreases hi + 1 - lo
  {
    if lo <= hi {
      MonthRangeAt(lo + 1, hi);
    }
  }

  /** One month of a response: its rows and its anchor. */
  lemma MonthExport(db: Db, teamId: Bytes, m: Month, now: Time)
    requires teamId != []
    ensures var rows := MonthRows(db, teamId, m);
            FullExport(db, teamId, MonthStart(m), Some(LastSecond(m)), now)
            == Ok(Envelope(Manifest(teamId, MonthChains(db, teamId, m), |rows|), Entries(rows)))
  {
    MonthBounds(teamId, m, now);
    assert ListChainHeads(db.heads, teamId, m + 1, m) == [];
    var heads := ListChainHeads(db.heads, teamId, m, m);
    assert Map(Summary, heads) == MonthChains(db, teamId, m);
  }

  /** The anchors of a range are the heads its months have. */
  lemma {:induction false} RangeChainsAt(db: Db, teamId: Bytes, months: seq<Month>)
    ensures forall c :: c in RangeChains(db, teamId, months) <==>
              exists m | m in months :: c in MonthChains(db, teamId, m)
  {
    if months == [] {
    } else {
      var n := |months| - 1;
      RangeChainsAt(db, teamId, months[..n]);
      assert months == months[..n] + [months[n]];
    }
  }

  /** Anchors already merged are skipped; those of a month not seen before are all taken. */
  method MergeChains(chains: seq<ChainSummary>, seen: set<Month>, more: seq<ChainSummary>, ghost m: Month)
    returns (merged: seq<ChainSummary>, seen': set<Month>)
    requires |more| <= 1 && m !in seen && forall c | c in more :: c.month == m
    ensures merged == chains + more
    ensures seen' <= seen + {m}
  {
    merged, seen' := chains, seen;
    for j := 0 to |more|
      invariant merged == chains + more[..j]
      invariant if j == 0 then seen' == seen else seen' <= seen + {m}
    {
      var c := more[j];
      assert c in more;
      if c.month !in seen' {
        seen' := seen' + {c.month};
        merged := merged + [c];
      }
    }
    assert more[..|more|] == more;
  }

  /** The months of anchors merged so far lie before m. */
  ghost predicate SeenBefore(seen: set<Month>, m: int) {
    forall k | k in seen :: k < m
  }

  function MonthEnvelope(db: Db, teamId: Bytes, m: Month): Envelope {
    var rows := MonthRows(db, teamId, m);
    Envelope(Manifest(teamId, MonthChains(db, teamId, m), |rows|), Entries(rows))
  }

  /** One month in full, up to its last whole second. */
  method FetchMonth(db: Db, cap: nat, teamId: Bytes, m: Month, now: Time) returns (r: Result<Envelope, ExportError>)
    requires cap >= 1 && LogIds(db) && teamId != []
    ensures r == Ok(MonthEnvelope(db, teamId, m))
  {
    r := FetchFullExport(db, cap, teamId, MonthStart(m), Some(LastSecond(m)), now);
    MonthExport(db, teamId, m, now);
  }

  lemma MergeStep(db: Db, teamId: Bytes, months: seq<Month>, i: nat)
    requires i < |months| && teamId != []
    ensures MergedEnvelope(db, teamId, months[..i + 1])
            == Joined(MergedEnvelope(db, teamId, months[..i]), MonthEnvelope(db, teamId, months[i]))
  {
    assert months[..i + 1][..i] == months[..i];
  }

  function Joined(merged: Envelope, page: Envelope): Envelope {
    Envelope(Manifest(if merged.manifest.teamId == [] then page.manifest.teamId else merged.manifest.teamId,
                      merged.manifest.chains + page.manifest.chains, 0),
             merged.entries + page.entries)
  }

  method MergeMonth(merged: Envelope, seen: set<Month>, page: Envelope, ghost m: Month)
    returns (merged': Envelope, seen': set<Month>)
    requires |page.manifest.chains| <= 1 && m !in seen && forall c | c in page.manifest.chains :: c.month == m
    requires merged.manifest.rowCount == 0
    ensures merged' == Joined(merged, page) && seen' <= seen + {m}
  {
    merged' := merged;
    if merged'.manifest.teamId == [] {
      merged' := merged'.(manifest := merged'.manifest.(teamId := page.manifest.teamId));
    }
    merged' := merged'.(entries := merged'.entries + page.entries);
    var chains;
    chains, seen' := MergeChains(merged'.manifest.chains, seen, page.manifest.chains, m);
    merged' := merged'.(manifest := merged'.manifest.(chains := chains));
  }

  /** Whatever the page cap, verification gets every row a whole-second month window holds and the anchor of
      every month, once. */
  method FetchChainsForVerify(db: Db, cap: nat, teamId: Bytes, since: Time, until: Option<Time>, now: Time)
    returns (r: Result<Envelope, ExportError>)
    requires cap >= 1 && LogIds(db) && teamId != []
    ensures r == Ok(RangeEnvelope(db, teamId,
                                  MonthRange(MonthOf(since), MonthOf(if until.Some? then until.value else now))))
  {
    var hi := if until.Some? then until.value else now;
    var months := MonthsInRange(since, hi);
    MonthRangeAt(MonthOf(since), MonthOf(hi));
    r := FetchMonths(db, cap, teamId, months, MonthOf(since), now);
  }

  method FetchMonths(db: Db, cap: nat, teamId: Bytes, months: seq<Month>, ghost lo: nat, now: Time)
    returns (r: Result<Envelope, ExportError>)
    requires cap >= 1 && LogIds(db) && teamId != []
    requires forall i | 0 <= i < |months| :: months[i] == lo + i
    ensures r == Ok(RangeEnvelope(db, teamId, months))
  {
    var merged := Envelope(Manifest([], [], 0), []);
    var seen := {};
    for i := 0 to |months|
      invariant merged == MergedEnvelope(db, teamId, months[..i])
      invariant SeenBefore(seen, lo + i)
    {
      var page := FetchMonth(db, cap, teamId, months[i], now);
      if page.Err? {
        return page;
      }
      merged, seen := MergeMonth(merged, seen, page.value, months[i]);
      MergeStep(db, teamId, months, i);
    }
    assert months[..|months|] == months;
    return Ok(Counted(merged));
  }
}
