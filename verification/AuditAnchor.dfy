/** What an anchor vouches for: any rows that verify against a ledger's head, and rows and heads read at different
    moments. */
module AuditAnchor {
  import opened Bytes
  import opened CivilTime
  import opened Sorting
  import opened JsonCanon
  import opened AuditCore
  import opened HashChain
  import opened AuditLog
  import opened AuditExport
  import opened AuditVerify
  import opened AuditEndToEnd
  import opened AuditVerdict

  // ---- any rows against the ledger's own head ----

  /** The rows carry, one by one, the bytes that were hashed when the entries were written. */
  ghost predicate Carries(norm: FloatText, rows: seq<VerifyRow>, es: seq<Entry>) {
    && |rows| == |es|
    && forall i | 0 <= i < |rows| :: CanonicalCore(norm, rows[i].core) == Some(es[i].hashed)
  }

  lemma CarriesSnoc(norm: FloatText, rows: seq<VerifyRow>, es: seq<Entry>)
    requires rows != [] && es != [] && Carries(norm, rows[..|rows| - 1], es[..|es| - 1])
    requires CanonicalCore(norm, rows[|rows| - 1].core) == Some(es[|es| - 1].hashed)
    ensures Carries(norm, rows, es)
  {
    var n := |rows| - 1;
    forall i | 0 <= i < |rows|
      ensures CanonicalCore(norm, rows[i].core) == Some(es[i].hashed)
    {
      if i < n {
        assert rows[i] == rows[..n][i] && es[i] == es[..n][i];
      } else {
        assert rows[i] == rows[n] && es[i] == es[n];
      }
    }
  }

  lemma TipDigest(env: Env, genesis: Bytes, es: seq<Entry>)
    requires LinkedEntries(env, genesis, es) && |genesis| == 32
    ensures |TipOf(genesis, es)| == 32
  {
    if es != [] {
      assert LinkedEntry(env, TipOf(genesis, es[..|es| - 1]), es[|es| - 1]);
    }
  }

  /** A row and an entry with one hash have one predecessor and one content, or their hashed texts collide. */
  lemma SameHashSameEntry(env: Env, p: Bytes, r: VerifyRow, q: Bytes, e: Entry) returns (x: Bytes, y: Bytes)
    requires Follows(env.sha, env.norm, p, r) && LinkedEntry(env, q, e)
    requires r.rowHash == e.row.rowHash && |p| == |q|
    ensures (p == q && CanonicalCore(env.norm, r.core) == Some(e.hashed)) || Collision(env.sha, x, y)
  {
    var c := CanonicalCore(env.norm, r.core).value;
    x, y := p + c, q + e.hashed;
    if x == y {
      UniqueSplit(p, c, q, e.hashed);
    }
  }

  lemma {:induction false} PinnedRows(env: Env, genesis: Digest, es: seq<Entry>, rows: seq<VerifyRow>)
    returns (x: Bytes, y: Bytes)
    requires LinkedEntries(env, genesis, es) && Linked(env.sha, env.norm, genesis, rows) && |rows| == |es|
    requires LastHash(genesis, rows) == TipOf(genesis, es)
    ensures Carries(env.norm, rows, es) || Collision(env.sha, x, y)
    decreases |rows|
  {
    if rows == [] {
      x, y := [], [];
    } else {
      var n := |rows| - 1;
      LinkedFront(env.sha, env.norm, genesis, rows);
      LinkedDigest(env.sha, env.norm, genesis, rows[..n]);
      LinkedEntriesPrefix(env, genesis, es, n);
      TipDigest(env, genesis, es[..n]);
      x, y := SameHashSameEntry(env, LastHash(genesis, rows[..n]), rows[n], TipOf(genesis, es[..n]), es[n]);
      if !Collision(env.sha, x, y) {
        x, y := PinnedRows(env, genesis, es[..n], rows[..n]);
        if Carries(env.norm, rows[..n], es[..n]) {
          CarriesSnoc(env.norm, rows, es);
        }
      }
    }
  }

  /** Whatever rows verify against a chain's own head carry, in order, exactly the content the chain was written
      with, or a collision comes out. */
  lemma AnchorPins(env: Env, db: Db, teamId: Bytes, m: Month, rows: seq<VerifyRow>) returns (x: Bytes, y: Bytes)
    requires Inv(env, db) && ChainKey(teamId, m) in db.heads
    requires var head := db.heads[ChainKey(teamId, m)];
             Sound(env.sha, env.norm, ChainInput(teamId, m, head.genesis, head.tip, head.rowCount, rows))
    ensures Carries(env.norm, rows, Chain(db.log, ChainKey(teamId, m))) || Collision(env.sha, x, y)
  {
    var k := ChainKey(teamId, m);
    var es := Chain(db.log, k);
    assert ChainSound(env, db, k);
    var genesis := GenesisHash(env.sha, teamId, m);
    TipDigest(env, genesis, es);
    x, y := PinnedRows(env, genesis, es, rows);
  }

  /** So for every anchor of a verified envelope that is the ledger's own, whatever entries the envelope has. */
  lemma VerifiedIsLedger(env: Env, db: Db, envelope: Envelope, m: Month) returns (x: Bytes, y: Bytes)
    requires Inv(env, db) && EnvelopeSound(env.sha, env.norm, envelope)
    requires ChainKey(envelope.manifest.teamId, m) in db.heads
    requires Summary(ChainHead(m, db.heads[ChainKey(envelope.manifest.teamId, m)])) in envelope.manifest.chains
    ensures var k := ChainKey(envelope.manifest.teamId, m);
            var rows := ChainInputOf(envelope, Summary(ChainHead(m, db.heads[k]))).rows;
            Carries(env.norm, rows, Chain(db.log, k)) || Collision(env.sha, x, y)
  {
    var k := ChainKey(envelope.manifest.teamId, m);
    var c := Summary(ChainHead(m, db.heads[k]));
    HexRoundTrip(db.heads[k].genesis);
    HexRoundTrip(db.heads[k].tip);
    x, y := AnchorPins(env, db, envelope.manifest.teamId, m, ChainInputOf(envelope, c).rows);
  }

  // ---- rows read before heads ----

  /** The database a run of steps leads to from another. */
  function Continue(env: Env, db: Db, steps: seq<Step>): Option<Db>
    decreases |steps|
  {
    if steps == [] then Some(db)
    else if Enabled(env, db, steps[0]) then Continue(env, Apply(env, db, steps[0]), steps[1..])
    else None
  }

  lemma {:induction false} ChainConcat(a: seq<Entry>, b: seq<Entry>, k: ChainKey)
    ensures Chain(a + b, k) == Chain(a, k) + Chain(b, k)
  {
    if b == [] {
      assert a + b == a;
    } else {
      var n := |b| - 1;
      assert (a + b)[..|a + b| - 1] == a + b[..n];
      ChainConcat(a, b[..n], k);
    }
  }

  lemma StepExtends(env: Env, db: Db, s: Step)
    requires Enabled(env, db, s)
    ensures db.log <= Apply(env, db, s).log
  {
  }

  lemma {:induction false} ContinueKeeps(env: Env, db: Db, steps: seq<Step>)
    requires Inv(env, db) && Continue(env, db, steps).Some?
    ensures Inv(env, Continue(env, db, steps).value) && db.log <= Continue(env, db, steps).value.log
    decreases |steps|
  {
    if steps == [] {
    } else {
      StepKeeps(env, db, steps[0]);
      StepExtends(env, db, steps[0]);
      ContinueKeeps(env, Apply(env, db, steps[0]), steps[1..]);
    }
  }

  lemma ChainOnlyGrows(db: Db, later: Db, k: ChainKey)
    requires db.log <= later.log
    ensures Chain(db.log, k) <= Chain(later.log, k)
  {
    ChainConcat(db.log, later.log[|db.log|..], k);
    assert later.log == db.log + later.log[|db.log|..];
  }

  /** The evidence when the rows were read at one state of the ledger and the head at a later one. */
  function SplitEvidence(db: Db, later: Db, teamId: Bytes, m: Month): ChainInput
    requires ChainKey(teamId, m) in later.heads
  {
    var head := later.heads[ChainKey(teamId, m)];
    ChainInput(teamId, m, head.genesis, head.tip, head.rowCount, OnTime(Chain(db.log, ChainKey(teamId, m))))
  }

  /** Such evidence verifies if and only if nothing was committed to the chain in between and the chain is clean, or a
      collision comes out. */
  lemma SplitReadVerdict(env: Env, db: Db, steps: seq<Step>, later: Db, teamId: Bytes, m: Month)
    returns (x: Bytes, y: Bytes)
    requires Inv(env, db) && Continue(env, db, steps) == Some(later) && ChainKey(teamId, m) in later.heads
    ensures var es, es' := Chain(db.log, ChainKey(teamId, m)), Chain(later.log, ChainKey(teamId, m));
            var evidence := SplitEvidence(db, later, teamId, m);
            && (es' == es && AllClean(env, es) ==> Sound(env.sha, env.norm, evidence))
            && (Sound(env.sha, env.norm, evidence) ==> es' == es && (AllClean(env, es) || Collision(env.sha, x, y)))
  {
    var k := ChainKey(teamId, m);
    var es, es' := Chain(db.log, k), Chain(later.log, k);
    ContinueKeeps(env, db, steps);
    ChainOnlyGrows(db, later, k);
    assert ChainSound(env, later, k);
    OnTimeMembers(es);
    x, y := [], [];
    if |es| == |es'| {
      assert es' == es;
      x, y := ChainVerdict(env, later, teamId, m);
    }
  }

  // ---- an export's own anchors ----

  lemma WindowRow(db: Db, teamId: Bytes, since: Time, until: Time, row: VerifyRow)
    requires row in Window(RowsOf(db), teamId, since, until)
    ensures row in RowsOf(db) && InWindow(teamId, since, until, row)
  {
    var p := InWindowOf(teamId, since, until);
    SortMembers(RowKey, Filter(p, RowsOf(db)));
    FilterMember(p, RowsOf(db));
  }

  lemma MonthBetween(since: Time, t: Time, until: Time)
    requires Ticks(since) <= Ticks(t) <= Ticks(until)
    ensures MonthOf(since) <= MonthOf(t) <= MonthOf(until)
  {
    TicksSplit(since);
    TicksSplit(t);
    TicksSplit(until);
  }

  /** In a full export of a reachable ledger every hashed entry has the anchor of its month beside it. */
  lemma ExportAnchored(env: Env, db: Db, teamId: Bytes, since: Time, until: Option<Time>, now: Time, e: ExportEntry)
    requires Inv(env, db) && FullExport(db, teamId, since, until, now).Ok?
    requires e in FullExport(db, teamId, since, until, now).value.entries && Hashed(e)
    ensures Anchored(FullExport(db, teamId, since, until, now).value, MonthOf(e.time))
  {
    var bound := if until.Some? then until.value else now;
    var envelope := FullExport(db, teamId, since, until, now).value;
    EntriesMembers(Window(RowsOf(db), teamId, since, bound));
    var row :| row in Window(RowsOf(db), teamId, since, bound) && e == NewExportEntry(row);
    WindowRow(db, teamId, since, bound, row);
    MonthBetween(since, row.core.createdAt, bound);
    HexRoundTrip(row.rowHash);
    StoredAnchored(env, db, row);
    FullExportAnchors(db, teamId, since, until, now);
    var k := KeyOf(row.core);
    var c := ChainSummary(k.month, HexEncode(db.heads[k].genesis), HexEncode(db.heads[k].tip), db.heads[k].rowCount);
    assert c in envelope.manifest.chains && c.month == MonthOf(e.time);
  }

  lemma StoredAnchored(env: Env, db: Db, row: VerifyRow)
    requires Inv(env, db) && row in RowsOf(db) && row.rowHash != []
    ensures KeyOf(row.core) in db.heads
  {
    var k := KeyOf(row.core);
    var i :| 0 <= i < |RowsOf(db)| && RowsOf(db)[i] == row;
    ChainMembers(db.log, k);
    assert db.log[i] in db.log && InChain(db.log[i], k);
    assert ChainSound(env, db, k);
  }
}
