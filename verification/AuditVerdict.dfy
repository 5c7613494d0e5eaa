/** The verdict on a ledger written only by the append protocol: exactly when it is OK. */
module AuditVerdict {
  import opened Bytes
  import opened CivilTime
  import opened AuditCore
  import opened HashChain
  import opened AuditLog
  import opened AuditRepository
  import opened AuditExport
  import opened AuditVerify
  import opened AuditMonths
  import opened AuditEndToEnd

  /** Verification will see the row, and see the bytes that were hashed. */
  predicate Clean(env: Env, e: Entry) {
    !Late(e) && Faithful(env, e)
  }

  ghost predicate AllClean(env: Env, es: seq<Entry>) {
    forall e | e in es :: Clean(env, e)
  }

  // ---- one chain ----

  lemma {:induction false} OnTimeAll(genesis: Bytes, es: seq<Entry>)
    requires forall e | e in es :: !Late(e)
    ensures |OnTime(es)| == |es|
    ensures forall i | 0 <= i < |es| :: OnTime(es)[i] == Exported(es[i].row)
    ensures LastHash(genesis, OnTime(es)) == TipOf(genesis, es)
  {
    if es == [] {
    } else {
      var n := |es| - 1;
      assert es == es[..n] + [es[n]];
      OnTimeAll(genesis, es[..n]);
      HexRoundTrip(es[n].row.rowHash);
    }
  }

  lemma {:induction false} OnTimeShort(es: seq<Entry>, late: Entry)
    requires late in es && Late(late)
    ensures |OnTime(es)| < |es|
  {
    var n := |es| - 1;
    assert es == es[..n] + [es[n]];
    OnTimeMembers(es[..n]);
    if !Late(es[n]) {
      OnTimeShort(es[..n], late);
    }
  }

  lemma LinkedEntriesPrefix(env: Env, genesis: Bytes, es: seq<Entry>, n: nat)
    requires LinkedEntries(env, genesis, es) && n <= |es|
    ensures LinkedEntries(env, genesis, es[..n])
    ensures n < |es| ==> LinkedEntry(env, TipOf(genesis, es[..n]), es[n])
  {
    forall i | 0 <= i < n
      ensures LinkedEntry(env, TipOf(genesis, es[..n][..i]), es[..n][i])
    {
      assert es[..n][..i] == es[..i];
    }
  }

  lemma LinkedSnoc(env: Env, prev: Bytes, rows: seq<VerifyRow>, row: VerifyRow)
    ensures Linked(env.sha, env.norm, prev, rows + [row]) <==>
            Linked(env.sha, env.norm, prev, rows) && Follows(env.sha, env.norm, LastHash(prev, rows), row)
  {
    assert (rows + [row])[..|rows|] == rows;
  }

  lemma FaithfulFollows(env: Env, prev: Bytes, e: Entry)
    requires LinkedEntry(env, prev, e) && Faithful(env, e)
    ensures Follows(env.sha, env.norm, prev, Exported(e.row))
  {
    ExportPreserves(env.norm, e.row);
  }

  lemma UnfaithfulFollows(env: Env, prev: Bytes, e: Entry) returns (x: Bytes, y: Bytes)
    requires LinkedEntry(env, prev, e) && !Faithful(env, e)
    requires Follows(env.sha, env.norm, prev, Exported(e.row))
    ensures Collision(env.sha, x, y)
  {
    ExportPreserves(env.norm, e.row);
    var c := CanonicalCore(env.norm, e.row.core).value;
    x, y := prev + c, prev + e.hashed;
    assert x[|prev|..] == c && y[|prev|..] == e.hashed;
  }

  /** One clean row more keeps the recomputed chain linked. */
  lemma CleanSnoc(env: Env, genesis: Bytes, es: seq<Entry>)
    requires es != [] && LinkedEntries(env, genesis, es) && AllClean(env, es)
    requires Linked(env.sha, env.norm, genesis, OnTime(es[..|es| - 1]))
    ensures Linked(env.sha, env.norm, genesis, OnTime(es))
  {
    var prefix, e := es[..|es| - 1], es[|es| - 1];
    assert e in es && AllClean(env, prefix);
    LinkedEntriesPrefix(env, genesis, es, |es| - 1);
    OnTimeAll(genesis, prefix);
    FaithfulFollows(env, TipOf(genesis, prefix), e);
    LinkedSnoc(env, genesis, OnTime(prefix), Exported(e.row));
  }

  /** Linked by the hashed bytes and faithful to them: linked by the recomputed bytes. */
  lemma {:induction false} CleanLinked(env: Env, genesis: Bytes, es: seq<Entry>)
    requires LinkedEntries(env, genesis, es) && AllClean(env, es)
    ensures Linked(env.sha, env.norm, genesis, OnTime(es))
    decreases |es|
  {
    if es == [] {
    } else {
      LinkedEntriesPrefix(env, genesis, es, |es| - 1);
      CleanLinked(env, genesis, es[..|es| - 1]);
      CleanSnoc(env, genesis, es);
    }
  }

  ghost predicate NoneLate(es: seq<Entry>) {
    forall e | e in es :: !Late(e)
  }

  /** A linked chain taken apart at its last row. */
  lemma Peel(env: Env, genesis: Bytes, es: seq<Entry>)
    requires es != [] && LinkedEntries(env, genesis, es) && NoneLate(es)
    requires Linked(env.sha, env.norm, genesis, OnTime(es))
    ensures var prefix, e := es[..|es| - 1], es[|es| - 1];
            && LinkedEntries(env, genesis, prefix) && NoneLate(prefix)
            && Linked(env.sha, env.norm, genesis, OnTime(prefix))
            && LinkedEntry(env, TipOf(genesis, prefix), e)
            && Follows(env.sha, env.norm, TipOf(genesis, prefix), Exported(e.row))
  {
    var prefix, e := es[..|es| - 1], es[|es| - 1];
    assert e in es && NoneLate(prefix);
    LinkedEntriesPrefix(env, genesis, es, |es| - 1);
    OnTimeAll(genesis, prefix);
    LinkedSnoc(env, genesis, OnTime(prefix), Exported(e.row));
  }

  /** If the recomputed chain links although a row is not faithful, two texts share their hash. */
  lemma {:induction false} UnfaithfulCollides(env: Env, genesis: Bytes, es: seq<Entry>, bad: Entry)
    returns (x: Bytes, y: Bytes)
    requires LinkedEntries(env, genesis, es) && NoneLate(es)
    requires Linked(env.sha, env.norm, genesis, OnTime(es))
    requires bad in es && !Faithful(env, bad)
    ensures Collision(env.sha, x, y)
    decreases |es|
  {
    var prefix, e := es[..|es| - 1], es[|es| - 1];
    Peel(env, genesis, es);
    if Faithful(env, e) {
      x, y := UnfaithfulCollides(env, genesis, prefix, bad);
    } else {
      x, y := UnfaithfulFollows(env, TipOf(genesis, prefix), e);
    }
  }

  /** The evidence for one chain of a fetched range. */
  function Evidence(db: Db, teamId: Bytes, m: Month): ChainInput
    requires ChainKey(teamId, m) in db.heads
  {
    var head := db.heads[ChainKey(teamId, m)];
    ChainInput(teamId, m, head.genesis, head.tip, head.rowCount, OnTime(Chain(db.log, ChainKey(teamId, m))))
  }

  lemma EvidenceOf(env: Env, db: Db, teamId: Bytes, months: seq<Month>, m: Month)
    requires Inv(env, db) && DistinctMonths(months) && m in months && ChainKey(teamId, m) in db.heads
    ensures var c := Summary(ChainHead(m, db.heads[ChainKey(teamId, m)]));
            ChainInputOf(RangeEnvelope(db, teamId, months), c) == Evidence(db, teamId, m)
  {
    var head := db.heads[ChainKey(teamId, m)];
    RangeRows(db, teamId, months, m);
    ResortedRows(env, db, teamId, m);
    HexRoundTrip(head.genesis);
    HexRoundTrip(head.tip);
  }

  /** A chain verifies exactly when its rows are clean, short of a collision. */
  lemma ChainVerdict(env: Env, db: Db, teamId: Bytes, m: Month) returns (x: Bytes, y: Bytes)
    requires Inv(env, db) && ChainKey(teamId, m) in db.heads
    ensures var es := Chain(db.log, ChainKey(teamId, m));
            && (AllClean(env, es) ==> Sound(env.sha, env.norm, Evidence(db, teamId, m)))
            && (Sound(env.sha, env.norm, Evidence(db, teamId, m)) ==> AllClean(env, es) || Collision(env.sha, x, y))
  {
    var k := ChainKey(teamId, m);
    var es, head := Chain(db.log, k), db.heads[k];
    assert ChainSound(env, db, k);
    x, y := [], [];
    if AllClean(env, es) {
      assert forall e | e in es :: Clean(env, e);
      CleanLinked(env, head.genesis, es);
      OnTimeAll(head.genesis, es);
    } else if Sound(env.sha, env.norm, Evidence(db, teamId, m)) {
      if late :| late in es && Late(late) {
        OnTimeShort(es, late);
        assert false;
      }
      var bad :| bad in es && !Clean(env, bad);
      x, y := UnfaithfulCollides(env, head.genesis, es, bad);
    }
  }

  // ---- the whole range ----

  /** Every hashed row of the team in the range is clean. */
  ghost predicate RangeClean(env: Env, db: Db, teamId: Bytes, months: seq<Month>) {
    forall m | m in months :: AllClean(env, Chain(db.log, ChainKey(teamId, m)))
  }

  lemma {:induction false} RangeEntryMonth(db: Db, teamId: Bytes, months: seq<Month>, e: ExportEntry)
    requires e in RangeEntries(db, teamId, months)
    ensures MonthOf(e.time) in months
    ensures exists row | row in MonthRows(db, teamId, MonthOf(e.time)) :: e == NewExportEntry(row)
  {
    var n := |months| - 1;
    if e in RangeEntries(db, teamId, months[..n]) {
      RangeEntryMonth(db, teamId, months[..n], e);
    } else {
      EntriesMembers(MonthRows(db, teamId, months[n]));
      var row :| row in MonthRows(db, teamId, months[n]) && e == NewExportEntry(row);
      WindowMembers(db, teamId, months[n]);
      assert months[n] in months;
    }
  }

  /** Every hashed entry fetched has the anchor of its month beside it. */
  lemma RangeAnchored(env: Env, db: Db, teamId: Bytes, months: seq<Month>, e: ExportEntry)
    requires Inv(env, db) && e in RangeEntries(db, teamId, months) && Hashed(e)
    ensures Anchored(RangeEnvelope(db, teamId, months), MonthOf(e.time))
  {
    var m := MonthOf(e.time);
    var k := ChainKey(teamId, m);
    RangeEntryMonth(db, teamId, months, e);
    var row :| row in MonthRows(db, teamId, m) && e == NewExportEntry(row);
    HexRoundTrip(row.rowHash);
    RowInChain(db, teamId, m, row);
    OnTimeMembers(Chain(db.log, k));
    assert ChainSound(env, db, k);
    RangeChainsAt(db, teamId, months);
    var c := Summary(ChainHead(m, db.heads[k]));
    assert c in MonthChains(db, teamId, m);
    assert c in RangeEnvelope(db, teamId, months).manifest.chains && c.month == m;
  }

  lemma RangeChainOf(db: Db, teamId: Bytes, months: seq<Month>, c: ChainSummary)
    requires c in RangeChains(db, teamId, months)
    ensures c.month in months && ChainKey(teamId, c.month) in db.heads
    ensures c == Summary(ChainHead(c.month, db.heads[ChainKey(teamId, c.month)]))
  {
    RangeChainsAt(db, teamId, months);
    var m :| m in months && c in MonthChains(db, teamId, m);
  }

  /** No false break: a clean range verifies, although rows were committed in another order than stamped. */
  lemma CleanVerifies(env: Env, db: Db, teamId: Bytes, months: seq<Month>)
    requires Inv(env, db) && DistinctMonths(months) && RangeClean(env, db, teamId, months)
    ensures EnvelopeSound(env.sha, env.norm, RangeEnvelope(db, teamId, months))
  {
    var envelope := RangeEnvelope(db, teamId, months);
    forall c | c in envelope.manifest.chains
      ensures Sound(env.sha, env.norm, ChainInputOf(envelope, c))
    {
      RangeChainOf(db, teamId, months, c);
      EvidenceOf(env, db, teamId, months, c.month);
      var _, _ := ChainVerdict(env, db, teamId, c.month);
    }
    forall e | e in envelope.entries && Hashed(e)
      ensures Anchored(envelope, MonthOf(e.time))
    {
      RangeAnchored(env, db, teamId, months, e);
    }
  }

  /** No silent pass: if the range verifies, every row is clean or a collision comes out. */
  lemma VerifiedClean(env: Env, db: Db, teamId: Bytes, months: seq<Month>) returns (x: Bytes, y: Bytes)
    requires Inv(env, db) && DistinctMonths(months)
    requires EnvelopeSound(env.sha, env.norm, RangeEnvelope(db, teamId, months))
    ensures RangeClean(env, db, teamId, months) || Collision(env.sha, x, y)
  {
    x, y := [], [];
    if !RangeClean(env, db, teamId, months) {
      var m :| m in months && !AllClean(env, Chain(db.log, ChainKey(teamId, m)));
      var k := ChainKey(teamId, m);
      assert ChainSound(env, db, k);
      var c := Summary(ChainHead(m, db.heads[k]));
      RangeChainsAt(db, teamId, months);
      assert c in MonthChains(db, teamId, m);
      assert c in RangeEnvelope(db, teamId, months).manifest.chains;
      EvidenceOf(env, db, teamId, months, m);
      x, y := ChainVerdict(env, db, teamId, m);
    }
  }

  lemma RangeDistinct(lo: nat, hi: Month)
    ensures DistinctMonths(MonthRange(lo, hi))
    ensures forall m :: m in MonthRange(lo, hi) <==> lo <= m <= hi
  {
    MonthRangeAt(lo, hi);
    forall m | lo <= m <= hi
      ensures m in MonthRange(lo, hi)
    {
      assert MonthRange(lo, hi)[m - lo] == m;
    }
  }

  /** The months a range touches; an open one ends now. */
  function Touched(since: Time, until: Option<Time>, now: Time): seq<Month> {
    MonthRange(MonthOf(since), MonthOf(if until.Some? then until.value else now))
  }

  /** `audit verify` against a ledger reached by any run of the append protocol: it answers OK exactly when
      every hashed row of the months in range is clean, or SHA-256 has a collision. */
  method Verify(
    env: Env, ghost steps: seq<Step>, db: Db, cap: nat, teamId: Bytes, since: Time, until: Option<Time>, now: Time)
    returns (report: Report, ghost x: Bytes, ghost y: Bytes)
    requires Run(env, steps) == Some(db) && cap >= 1 && teamId != []
    ensures RangeClean(env, db, teamId, Touched(since, until, now)) ==> report.ok
    ensures report.ok ==> RangeClean(env, db, teamId, Touched(since, until, now)) || Collision(env.sha, x, y)
  {
    RunSound(env, steps);
    var fetched := FetchChainsForVerify(db, cap, teamId, since, until, now);
    report := VerifyEnvelope(env.sha, env.norm, fetched.value);
    x, y := [], [];
    ghost var months := Touched(since, until, now);
    RangeDistinct(MonthOf(since), MonthOf(if until.Some? then until.value else now));
    if report.ok {
      x, y := VerifiedClean(env, db, teamId, months);
    }
    if RangeClean(env, db, teamId, months) {
      CleanVerifies(env, db, teamId, months);
    }
  }

  // ---- the failing family is reachable ----

  function OneAppend(row: InsertRow, now: Time): seq<Step> {
    [Begin(0, row, now), Lock(0), Allocate(0), Write(0), Commit(0)]
  }

  lemma RunSnoc(env: Env, steps: seq<Step>, db: Db, s: Step)
    requires Run(env, steps) == Some(db) && Enabled(env, db, s)
    ensures Run(env, steps + [s]) == Some(Apply(env, db, s))
  {
    assert (steps + [s])[..|steps|] == steps;
  }

  lemma OpenRuns(env: Env, row: InsertRow, now: Time)
    requires Parses(env, row)
    ensures Run(env, [Begin(0, row, now), Lock(0), Allocate(0)])
            == Some(AtNumber(env, EMPTY, 0, Next(env, EMPTY, row, now)))
  {
    OpenSteps(env, EMPTY, 0, row, now);
    var b, l: Step, n: Step := Begin(0, row, now), Lock(0), Allocate(0);
    var d1 := Apply(env, EMPTY, b);
    RunSnoc(env, [], EMPTY, b);
    RunSnoc(env, [] + [b], d1, l);
    RunSnoc(env, [] + [b] + [l], Apply(env, d1, l), n);
    assert [b, l, n] == [] + [b] + [l] + [n];
  }

  lemma OneAppendRuns(env: Env, row: InsertRow, now: Time)
    requires Accepts(env, EMPTY, row, now)
    ensures Run(env, OneAppend(row, now)) == Some(Appended(env, EMPTY, row, now))
  {
    var core := Next(env, EMPTY, row, now);
    OpenRuns(env, row, now);
    CloseSteps(env, EMPTY, 0, core);
    var open3: seq<Step>, w: Step, c: Step := [Begin(0, row, now), Lock(0), Allocate(0)], Write(0), Commit(0);
    var d3 := AtNumber(env, EMPTY, 0, core);
    RunSnoc(env, open3, d3, w);
    RunSnoc(env, open3 + [w], Apply(env, d3, w), c);
    assert OneAppend(row, now) == open3 + [w] + [c];
  }

  /** One honest append in the last fraction of a month is reported as a break, whatever the hash function:
      the window's end, formatted to whole seconds, leaves the row out while the anchor counts it. */
  lemma LateRowBreaks(env: Env, row: InsertRow, now: Time)
    requires Accepts(env, EMPTY, row, now) && LateInMonth(TruncateMicro(now))
    ensures Run(env, OneAppend(row, now)) == Some(Appended(env, EMPTY, row, now))
    ensures var db := Appended(env, EMPTY, row, now); var teamId := env.uuid(row.teamId).value;
            !EnvelopeSound(env.sha, env.norm, RangeEnvelope(db, teamId, [MonthOf(now)]))
  {
    OneAppendRuns(env, row, now);
    RunSound(env, OneAppend(row, now));
    var db, teamId := Appended(env, EMPTY, row, now), env.uuid(row.teamId).value;
    var m := MonthOf(now);
    var k := ChainKey(teamId, m);
    var e := db.log[0];
    ChainMembers(db.log, k);
    OnTimeShort(Chain(db.log, k), e);
    EvidenceOf(env, db, teamId, [m], m);
    var c := Summary(ChainHead(m, db.heads[k]));
    assert c in MonthChains(db, teamId, m);
    RangeChainsAt(db, teamId, [m]);
    assert c in RangeEnvelope(db, teamId, [m]).manifest.chains;
    assert ChainSound(env, db, k);
    assert !Sound(env.sha, env.norm, Evidence(db, teamId, m));
  }
}
