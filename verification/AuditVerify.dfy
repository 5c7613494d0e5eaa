/** `audit verify`: fetch whole months, recompute every chain, and what its verdict means for a ledger
    written by InsertAuditLog. */
module AuditVerify {
  import opened Bytes
  import opened CivilTime
  import opened Sorting
  import opened JsonCanon
  import opened HashChain
  import opened AuditExport

  // ---- verifyEnvelope ----

  datatype Report = Report(chains: seq<Verdict>, preChainRows: nat, ok: bool)

  predicate Hashed(e: ExportEntry) {
    e.rowHash != []
  }

  /** The hashed entries of one month, in envelope order. */
  function HashedRows(teamId: Bytes, entries: seq<ExportEntry>, m: Month): seq<VerifyRow> {
    if entries == [] then []
    else
      var n := |entries| - 1;
      var e := entries[n];
      HashedRows(teamId, entries[..n], m)
      + (if Hashed(e) && MonthOf(e.time) == m then [ToVerifyRow(teamId, e)] else [])
  }

  function PreChainRows(entries: seq<ExportEntry>): nat {
    if entries == [] then 0
    else PreChainRows(entries[..|entries| - 1]) + (if Hashed(entries[|entries| - 1]) then 0 else 1)
  }

  function Unhashed(entries: seq<ExportEntry>): set<int> {
    set i | 0 <= i < |entries| && entries[i].rowHash == []
  }

  /** Pre-chain rows are those without a hash, each counted once. */
  lemma {:induction false} PreChainCounted(entries: seq<ExportEntry>)
    ensures PreChainRows(entries) == |Unhashed(entries)|
  {
    if entries == [] {
    } else {
      var n := |entries| - 1;
      PreChainCounted(entries[..n]);
      forall i
        ensures i in Unhashed(entries) <==> i in Unhashed(entries[..n]) || (i == n && entries[n].rowHash == [])
      {
      }
      assert Unhashed(entries) == Unhashed(entries[..n]) + if entries[n].rowHash == [] then {n} else {};
    }
  }

  function IdKey(row: VerifyRow): Key {
    Key(row.core.id, 0)
  }

  function MonthKey(v: Verdict): Key {
    Key(v.month, 0)
  }

  /** The evidence handed to VerifyChain for one anchor. */
  function ChainInputOf(env: Envelope, c: ChainSummary): ChainInput {
    ChainInput(env.manifest.teamId, c.month, HexDecode(c.genesisHash), HexDecode(c.tipHash), c.rowCount,
               Sort(IdKey, HashedRows(env.manifest.teamId, env.entries, c.month)))
  }

  ghost predicate Anchored(env: Envelope, m: Month) {
    exists c | c in env.manifest.chains :: c.month == m
  }

  /** Every anchored chain is sound, and no hashed row lacks an anchor. */
  ghost predicate EnvelopeSound(sha: Hash, norm: FloatText, env: Envelope) {
    && (forall c | c in env.manifest.chains :: Sound(sha, norm, ChainInputOf(env, c)))
    && (forall e | e in env.entries && Hashed(e) :: Anchored(env, MonthOf(e.time)))
  }

  ghost predicate AllOk(chains: seq<Verdict>) {
    forall v | v in chains :: v.ok
  }

  /** The months that have a hashed entry. */
  function HashedMonths(entries: seq<ExportEntry>): set<Month> {
    set e | e in entries && Hashed(e) :: MonthOf(e.time)
  }

  /** The month buckets after the first n entries. */
  ghost predicate Bucketed(env: Envelope, n: nat, chained: map<Month, seq<VerifyRow>>)
    requires n <= |env.entries|
  {
    && chained.Keys == HashedMonths(env.entries[..n])
    && (forall m :: HashedRows(env.manifest.teamId, env.entries[..n], m) == Bucketful(chained, m))
  }

  function Bucketful(chained: map<Month, seq<VerifyRow>>, m: Month): seq<VerifyRow> {
    if m in chained then chained[m] else []
  }

  function Added(chained: map<Month, seq<VerifyRow>>, teamId: Bytes, e: ExportEntry): map<Month, seq<VerifyRow>> {
    var m := MonthOf(e.time);
    if Hashed(e) then chained[m := Bucketful(chained, m) + [ToVerifyRow(teamId, e)]] else chained
  }

  lemma MonthsStep(entries: seq<ExportEntry>, e: ExportEntry)
    ensures HashedMonths(entries + [e]) == HashedMonths(entries) + (if Hashed(e) then {MonthOf(e.time)} else {})
  {
  }

  lemma HashedRowsStep(teamId: Bytes, entries: seq<ExportEntry>, e: ExportEntry, m: Month)
    ensures HashedRows(teamId, entries + [e], m) ==
            HashedRows(teamId, entries, m)
            + (if Hashed(e) && MonthOf(e.time) == m then [ToVerifyRow(teamId, e)] else [])
  {
    assert (entries + [e])[..|entries|] == entries;
  }

  lemma AddedRows(chained: map<Month, seq<VerifyRow>>, teamId: Bytes, e: ExportEntry, m: Month)
    ensures Bucketful(Added(chained, teamId, e), m) ==
            Bucketful(chained, m) + (if Hashed(e) && MonthOf(e.time) == m then [ToVerifyRow(teamId, e)] else [])
  {
  }

  lemma BucketStep(env: Envelope, n: nat, chained: map<Month, seq<VerifyRow>>)
    requires n < |env.entries| && Bucketed(env, n, chained)
    ensures Bucketed(env, n + 1, Added(chained, env.manifest.teamId, env.entries[n]))
  {
    var e, teamId := env.entries[n], env.manifest.teamId;
    assert env.entries[..n + 1] == env.entries[..n] + [e];
    MonthsStep(env.entries[..n], e);
    forall m: Month
      ensures HashedRows(teamId, env.entries[..n + 1], m) == Bucketful(Added(chained, teamId, e), m)
    {
      HashedRowsStep(teamId, env.entries[..n], e, m);
      AddedRows(chained, teamId, e, m);
    }
  }

  /** Sort the hashed entries into months. */
  method Bucket(env: Envelope) returns (chained: map<Month, seq<VerifyRow>>, preChainRows: nat)
    ensures Bucketed(env, |env.entries|, chained)
    ensures preChainRows == PreChainRows(env.entries)
  {
    chained, preChainRows := map[], 0;
    for i := 0 to |env.entries|
      invariant Bucketed(env, i, chained)
      invariant preChainRows == PreChainRows(env.entries[..i])
    {
      var e := env.entries[i];
      var month := MonthOf(e.time);
      BucketStep(env, i, chained);
      assert env.entries[..i + 1][..i] == env.entries[..i];
      if !Hashed(e) {
        preChainRows := preChainRows + 1;
      } else {
        chained := chained[month := Bucketful(chained, month) + [ToVerifyRow(env.manifest.teamId, e)]];
      }
    }
    assert env.entries[..|env.entries|] == env.entries;
  }

  ghost predicate VerdictFor(sha: Hash, norm: FloatText, env: Envelope, c: ChainSummary, v: Verdict) {
    VerdictOf(sha, norm, ChainInputOf(env, c), v)
  }

  /** Every verdict is about an anchored chain or a month without anchor, and all of those have one. */
  ghost predicate Judged(sha: Hash, norm: FloatText, env: Envelope, verdicts: seq<Verdict>) {
    && (forall v | v in verdicts ::
          MissingVerdict(env, v) || exists c | c in env.manifest.chains :: VerdictFor(sha, norm, env, c, v))
    && (forall c | c in env.manifest.chains :: exists v | v in verdicts :: VerdictFor(sha, norm, env, c, v))
    && (forall m | m in Unanchored(env) :: exists v | v in verdicts :: v.month == m && MissingVerdict(env, v))
  }

  method VerifyEnvelope(sha: Hash, norm: FloatText, env: Envelope) returns (report: Report)
    ensures report.ok <==> EnvelopeSound(sha, norm, env)
    ensures report.ok <==> AllOk(report.chains)
    ensures report.preChainRows == PreChainRows(env.entries)
    ensures |report.chains| == |env.manifest.chains| + |Unanchored(env)|
    ensures MonthsAscend(report.chains)
    ensures Judged(sha, norm, env, report.chains)
  {
    var chained, preChainRows := Bucket(env);
    var verdicts, ok := VerifyAnchors(sha, norm, env, chained);
    var missing := MissingAnchors(env, chained);
    EnvelopeDecided(sha, norm, env, verdicts);
    SortedReport(verdicts, missing);
    ReportJudged(sha, norm, env, verdicts, missing);
    report := Report(Sort(MonthKey, verdicts + missing), preChainRows, ok && missing == []);
  }

  ghost predicate MonthsAscend(chains: seq<Verdict>) {
    forall i, j | 0 <= i < j < |chains| :: chains[i].month <= chains[j].month
  }

  /** Sorting the two lists of verdicts by month keeps all of both, and nothing else. */
  lemma SortedReport(verdicts: seq<Verdict>, missing: seq<Verdict>)
    requires forall v | v in missing :: !v.ok
    ensures var sorted := Sort(MonthKey, verdicts + missing);
            && |sorted| == |verdicts| + |missing|
            && MonthsAscend(sorted)
            && (AllOk(sorted) <==> AllOk(verdicts) && missing == [])
  {
    var all := verdicts + missing;
    var sorted := Sort(MonthKey, all);
    SortMembers(MonthKey, all);
    SortOrders(MonthKey, all);
    forall i, j | 0 <= i < j < |sorted|
      ensures sorted[i].month <= sorted[j].month
    {
      assert !Before(MonthKey(sorted[j]), MonthKey(sorted[i]));
    }
    forall v | v in verdicts
      ensures v in sorted
    {
      assert v in all;
    }
    if missing != [] {
      assert missing[0] in all;
    }
    assert forall v | v in sorted :: v in verdicts || v in missing;
  }

  /** One verdict for each of the first anchors, in their order. */
  ghost predicate VerdictsFor(sha: Hash, norm: FloatText, env: Envelope, verdicts: seq<Verdict>) {
    && |verdicts| <= |env.manifest.chains|
    && forall j | 0 <= j < |verdicts| :: VerdictFor(sha, norm, env, env.manifest.chains[j], verdicts[j])
  }

  lemma EnvelopeDecided(sha: Hash, norm: FloatText, env: Envelope, verdicts: seq<Verdict>)
    requires VerdictsFor(sha, norm, env, verdicts) && |verdicts| == |env.manifest.chains|
    ensures EnvelopeSound(sha, norm, env) <==> AllOk(verdicts) && |Unanchored(env)| == 0
  {
    UnanchoredIff(env);
    assert AllOk(verdicts) <==> forall c | c in env.manifest.chains :: Sound(sha, norm, ChainInputOf(env, c));
  }

  lemma VerdictsStep(sha: Hash, norm: FloatText, env: Envelope, verdicts: seq<Verdict>, v: Verdict)
    requires VerdictsFor(sha, norm, env, verdicts) && |verdicts| < |env.manifest.chains|
    requires VerdictFor(sha, norm, env, env.manifest.chains[|verdicts|], v)
    ensures VerdictsFor(sha, norm, env, verdicts + [v])
  {
  }

  lemma ReportJudged(sha: Hash, norm: FloatText, env: Envelope, verdicts: seq<Verdict>, missing: seq<Verdict>)
    requires VerdictsFor(sha, norm, env, verdicts) && |verdicts| == |env.manifest.chains|
    requires forall v | v in missing :: MissingVerdict(env, v)
    requires MonthsOf(missing) == Unanchored(env)
    ensures Judged(sha, norm, env, Sort(MonthKey, verdicts + missing))
  {
    var chains, all := env.manifest.chains, verdicts + missing;
    SortMembers(MonthKey, all);
    forall c | c in chains
      ensures exists v | v in Sort(MonthKey, all) :: VerdictFor(sha, norm, env, c, v)
    {
      var j :| 0 <= j < |chains| && chains[j] == c;
      assert all[j] in all && VerdictFor(sha, norm, env, c, all[j]);
    }
    forall v | v in Sort(MonthKey, all)
      ensures MissingVerdict(env, v) || exists c | c in chains :: VerdictFor(sha, norm, env, c, v)
    {
      var j :| 0 <= j < |all| && all[j] == v;
      if j < |verdicts| {
        assert chains[j] in chains && VerdictFor(sha, norm, env, chains[j], v);
      } else {
        assert v == missing[j - |verdicts|];
      }
    }
    forall m | m in Unanchored(env)
      ensures exists v | v in Sort(MonthKey, all) :: v.month == m && MissingVerdict(env, v)
    {
      assert m in MonthsOf(missing);
      var v :| v in missing && v.month == m;
      assert v in all;
    }
  }

  /** One verdict for every anchor of the manifest, in its order. */
  method VerifyAnchors(sha: Hash, norm: FloatText, env: Envelope, chained: map<Month, seq<VerifyRow>>)
    returns (verdicts: seq<Verdict>, ok: bool)
    requires Bucketed(env, |env.entries|, chained)
    ensures VerdictsFor(sha, norm, env, verdicts) && |verdicts| == |env.manifest.chains|
    ensures ok <==> AllOk(verdicts)
  {
    verdicts, ok := [], true;
    for i := 0 to |env.manifest.chains|
      invariant ok <==> AllOk(verdicts)
      invariant |verdicts| == i && VerdictsFor(sha, norm, env, verdicts)
    {
      var verdict := VerifyAnchor(sha, norm, env, env.manifest.chains[i], chained);
      if !verdict.ok {
        ok := false;
      }
      VerdictsStep(sha, norm, env, verdicts, verdict);
      verdicts := verdicts + [verdict];
    }
  }

  method VerifyAnchor(sha: Hash, norm: FloatText, env: Envelope, c: ChainSummary, chained: map<Month, seq<VerifyRow>>)
    returns (verdict: Verdict)
    requires Bucketed(env, |env.entries|, chained)
    ensures VerdictFor(sha, norm, env, c, verdict)
  {
    InputFromBucket(env, c, chained);
    var input := ChainInput(env.manifest.teamId, c.month, HexDecode(c.genesisHash), HexDecode(c.tipHash),
                            c.rowCount, Sort(IdKey, Bucketful(chained, c.month)));
    verdict := VerifyChain(sha, norm, input);
  }

  lemma InputFromBucket(env: Envelope, c: ChainSummary, chained: map<Month, seq<VerifyRow>>)
    requires Bucketed(env, |env.entries|, chained)
    ensures ChainInput(env.manifest.teamId, c.month, HexDecode(c.genesisHash), HexDecode(c.tipHash),
                       c.rowCount, Sort(IdKey, Bucketful(chained, c.month))) == ChainInputOf(env, c)
  {
    assert env.entries[..|env.entries|] == env.entries;
  }

  function AnchoredMonths(env: Envelope): set<Month> {
    set c | c in env.manifest.chains :: c.month
  }

  /** The months that have hashed entries and no anchor. */
  function Unanchored(env: Envelope): set<Month> {
    HashedMonths(env.entries) - AnchoredMonths(env)
  }

  /** A failed verdict for each month that has hashed rows and no anchor, and none for any other. */
  method MissingAnchors(env: Envelope, chained: map<Month, seq<VerifyRow>>) returns (missing: seq<Verdict>)
    requires Bucketed(env, |env.entries|, chained)
    ensures forall v | v in missing :: MissingVerdict(env, v)
    ensures MonthsOf(missing) == Unanchored(env) && |missing| == |Unanchored(env)|
  {
    assert env.entries[..|env.entries|] == env.entries;
    missing := MissingFrom(chained, AnchoredMonths(env));
  }

  /** The verdict on a month that has hashed rows and no anchor. */
  predicate MissingVerdict(env: Envelope, v: Verdict) {
    && v.month in Unanchored(env)
    && v == Verdict(v.month, |HashedRows(env.manifest.teamId, env.entries, v.month)|, false, NoAnchor, 0)
  }

  method MissingFrom(chained: map<Month, seq<VerifyRow>>, anchored: set<Month>) returns (missing: seq<Verdict>)
    ensures Missing(chained, chained.Keys - anchored, missing)
  {
    missing := [];
    var months := chained.Keys;
    assert chained.Keys - months - anchored == {};
    while months != {}
      invariant Passed(chained, months, anchored, missing)
    {
      var m :| m in months;
      PassedStep(chained, months, anchored, missing, m);
      if m !in anchored {
        missing := missing + [Verdict(m, |chained[m]|, false, NoAnchor, 0)];
      }
      months := months - {m};
    }
    assert chained.Keys - {} - anchored == chained.Keys - anchored;
  }

  ghost function MonthsOf(verdicts: seq<Verdict>): set<Month> {
    set v | v in verdicts :: v.month
  }

  /** One failed verdict, with its row count, for each of the found months. */
  ghost predicate Missing(chained: map<Month, seq<VerifyRow>>, found: set<Month>, missing: seq<Verdict>) {
    && |missing| == |found| && MonthsOf(missing) == found <= chained.Keys
    && forall v | v in missing :: v.month in found && v == Verdict(v.month, |chained[v.month]|, false, NoAnchor, 0)
  }

  lemma MissingStep(chained: map<Month, seq<VerifyRow>>, found: set<Month>, missing: seq<Verdict>, m: Month)
    requires Missing(chained, found, missing) && m in chained.Keys - found
    ensures Missing(chained, found + {m}, missing + [Verdict(m, |chained[m]|, false, NoAnchor, 0)])
  {
    var next := missing + [Verdict(m, |chained[m]|, false, NoAnchor, 0)];
    assert next[|missing|] in next;
    assert forall v | v in missing :: v in next;
    assert MonthsOf(next) == found + {m};
  }

  /** What the loop has once the months still to visit are these. */
  ghost predicate Passed(chained: map<Month, seq<VerifyRow>>, months: set<Month>, anchored: set<Month>,
                         missing: seq<Verdict>) {
    months <= chained.Keys && Missing(chained, chained.Keys - months - anchored, missing)
  }

  lemma PassedStep(chained: map<Month, seq<VerifyRow>>, months: set<Month>, anchored: set<Month>,
                   missing: seq<Verdict>, m: Month)
    requires Passed(chained, months, anchored, missing) && m in months
    ensures Passed(chained, months - {m}, anchored,
                   if m in anchored then missing else missing + [Verdict(m, |chained[m]|, false, NoAnchor, 0)])
  {
    var found := chained.Keys - months - anchored;
    if m in anchored {
      assert chained.Keys - (months - {m}) - anchored == found;
    } else {
      assert chained.Keys - (months - {m}) - anchored == found + {m};
      MissingStep(chained, found, missing, m);
    }
  }

  lemma UnanchoredIff(env: Envelope)
    ensures Unanchored(env) == {} <==> forall e | e in env.entries && Hashed(e) :: Anchored(env, MonthOf(e.time))
  {
    forall m
      ensures m in AnchoredMonths(env) <==> Anchored(env, m)
    {
    }
    if Unanchored(env) == {} {
      forall e | e in env.entries && Hashed(e)
        ensures Anchored(env, MonthOf(e.time))
      {
        assert MonthOf(e.time) in HashedMonths(env.entries) && MonthOf(e.time) !in Unanchored(env);
      }
    } else {
      var m :| m in Unanchored(env);
      var e :| e in env.entries && Hashed(e) && MonthOf(e.time) == m;
      assert !Anchored(env, m);
    }
  }
}
