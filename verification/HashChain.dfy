/** The per-(team, month) hash chain: genesis, linkage, verification and tamper evidence.

    `sha` is SHA-256, left uninterpreted: every result holds for any function into 32 bytes. */
module HashChain {
  import opened Bytes
  import opened CivilTime
  import opened JsonCanon
  import opened AuditCore

  type Hash = Bytes -> Digest

  /** "0ops-audit-chain-v1" */
  const CHAIN_DOMAIN: Bytes := [0x30, 0x6F, 0x70, 0x73, 0x2D, 0x61, 0x75, 0x64, 0x69, 0x74, 0x2D,
                                0x63, 0x68, 0x61, 0x69, 0x6E, 0x2D, 0x76, 0x31]

  function GenesisText(teamId: Bytes, month: Month): Bytes {
    CHAIN_DOMAIN + [UNIT_SEPARATOR] + teamId + [UNIT_SEPARATOR] + MonthLabel(month)
  }

  function GenesisHash(sha: Hash, teamId: Bytes, month: Month): Digest {
    sha(GenesisText(teamId, month))
  }

  function RowHash(sha: Hash, prevHash: Bytes, canonicalCore: Bytes): Digest {
    sha(prevHash + canonicalCore)
  }

  /** The hashed text is the domain, the team and the month's label, set apart by the separator. */
  lemma GenesisLayout(teamId: Bytes, month: Month)
    requires NoSeparator(teamId)
    ensures Split(GenesisText(teamId, month)) == [Ascii("0ops-audit-chain-v1"), teamId, MonthLabel(month)]
  {
    LabelPlain(month);
    DomainText();
    SplitThree(CHAIN_DOMAIN, teamId, MonthLabel(month));
  }

  lemma DomainText()
    ensures CHAIN_DOMAIN == Ascii("0ops-audit-chain-v1") && NoSeparator(CHAIN_DOMAIN)
  {
  }

  lemma SplitThree(a: Bytes, b: Bytes, c: Bytes)
    requires NoSeparator(a) && NoSeparator(b) && NoSeparator(c)
    ensures Split(a + [UNIT_SEPARATOR] + b + [UNIT_SEPARATOR] + c) == [a, b, c]
  {
    ThreeJoined(a, b, c);
    SplitJoin([a, b, c]);
  }

  lemma ThreeJoined(a: Bytes, b: Bytes, c: Bytes)
    ensures Join([a, b, c]) == a + [UNIT_SEPARATOR] + b + [UNIT_SEPARATOR] + c
  {
    assert [a, b, c][1..] == [b, c] && [b, c][1..] == [c];
    assert Join([b, c]) == b + ([UNIT_SEPARATOR] + c);
    var u := [UNIT_SEPARATOR];
    assert a + (u + (b + (u + c))) == a + u + b + u + c;
  }

  /** Each team and month has its own genesis text. */
  lemma GenesisTextIff(teamId: Bytes, month: Month, teamId': Bytes, month': Month)
    requires NoSeparator(teamId) && NoSeparator(teamId')
    ensures GenesisText(teamId, month) == GenesisText(teamId', month') <==> teamId == teamId' && month == month'
  {
    GenesisLayout(teamId, month);
    GenesisLayout(teamId', month');
    if GenesisText(teamId, month) == GenesisText(teamId', month') {
      assert [Ascii("0ops-audit-chain-v1"), teamId, MonthLabel(month)][1] == teamId';
      assert [Ascii("0ops-audit-chain-v1"), teamId, MonthLabel(month)][2] == MonthLabel(month');
      LabelInjective(month, month');
    }
  }

  /** The hashed text of a row is its predecessor's hash followed by its own canonical bytes. */
  lemma RowText(sha: Hash, prevHash: Digest, core: Bytes, text: Bytes)
    requires |text| >= 32 && text[..32] == prevHash && text[32..] == core
    ensures RowHash(sha, prevHash, core) == sha(text)
  {
    assert text == prevHash + core;
  }

  datatype VerifyRow = VerifyRow(core: Core, prevHash: Bytes, rowHash: Bytes)

  datatype ChainInput = ChainInput(
    teamId: Bytes, month: Month, genesis: Bytes, tip: Bytes, rowCount: int, rows: seq<VerifyRow>)

  datatype Reason = Intact | LinkageBroken | CanonicalisationFailed | RowTampered | CountMismatch | TipMismatch
                  | NoAnchor

  datatype Verdict = Verdict(month: Month, rowCount: int, ok: bool, reason: Reason, breakId: int)

  // ---- what a sound chain is ----

  /** The hash a chain ends with. */
  function LastHash(prev: Bytes, rows: seq<VerifyRow>): Bytes {
    if rows == [] then prev else rows[|rows| - 1].rowHash
  }

  /** The row follows prev and its own hash is the one recomputed from its content. */
  predicate Follows(sha: Hash, norm: FloatText, prev: Bytes, row: VerifyRow) {
    && row.prevHash == prev
    && CanonicalCore(norm, row.core).Some?
    && row.rowHash == RowHash(sha, prev, CanonicalCore(norm, row.core).value)
  }

  predicate Linked(sha: Hash, norm: FloatText, prev: Bytes, rows: seq<VerifyRow>) {
    rows == [] ||
    (var k := |rows| - 1;
     Linked(sha, norm, prev, rows[..k]) && Follows(sha, norm, LastHash(prev, rows[..k]), rows[k]))
  }

  /** What VerifyChain certifies. An empty anchor tip is not compared. */
  predicate Sound(sha: Hash, norm: FloatText, c: ChainInput) {
    && Linked(sha, norm, c.genesis, c.rows)
    && |c.rows| == c.rowCount
    && (c.tip == [] || LastHash(c.genesis, c.rows) == c.tip)
  }

  // ---- verification ----

  lemma LinkedFront(sha: Hash, norm: FloatText, prev: Bytes, rows: seq<VerifyRow>)
    requires rows != [] && Linked(sha, norm, prev, rows)
    ensures Linked(sha, norm, prev, rows[..|rows| - 1])
  {
  }

  lemma {:induction false} LinkedPrefix(sha: Hash, norm: FloatText, prev: Bytes, rows: seq<VerifyRow>, n: nat)
    requires n <= |rows| && Linked(sha, norm, prev, rows)
    ensures Linked(sha, norm, prev, rows[..n])
  {
    if n == |rows| {
      assert rows[..n] == rows;
    } else {
      var front := rows[..|rows| - 1];
      assert front[..n] == rows[..n];
      LinkedFront(sha, norm, prev, rows);
      LinkedPrefix(sha, norm, prev, front, n);
    }
  }

  lemma LinkedStep(sha: Hash, norm: FloatText, prev: Bytes, rows: seq<VerifyRow>, i: nat)
    requires i < |rows|
    ensures Linked(sha, norm, prev, rows[..i + 1])
            <==> Linked(sha, norm, prev, rows[..i]) && Follows(sha, norm, LastHash(prev, rows[..i]), rows[i])
  {
    assert rows[..i + 1][..i] == rows[..i];
  }

  /** What is wrong with a row that should follow prev: first its link, then its content, then its hash. */
  function RowFault(sha: Hash, norm: FloatText, prev: Bytes, row: VerifyRow): (fault: Option<Reason>)
    ensures fault.None? <==> Follows(sha, norm, prev, row)
    ensures fault.Some? ==> fault.value in {LinkageBroken, CanonicalisationFailed, RowTampered}
  {
    if row.prevHash != prev then Some(LinkageBroken)
    else match CanonicalCore(norm, row.core)
      case None => Some(CanonicalisationFailed)
      case Some(canonical) => if row.rowHash != RowHash(sha, prev, canonical) then Some(RowTampered) else None
  }

  method CheckRow(sha: Hash, norm: FloatText, prev: Bytes, row: VerifyRow) returns (fault: Option<Reason>)
    ensures fault == RowFault(sha, norm, prev, row)
  {
    if row.prevHash != prev {
      return Some(LinkageBroken);
    }
    var canonical := EncodeCore(norm, row.core);
    if canonical.None? {
      return Some(CanonicalisationFailed);
    }
    if row.rowHash != RowHash(sha, prev, canonical.value) {
      return Some(RowTampered);
    }
    return None;
  }

  /** The chain is linked up to row k, which has the given fault. */
  predicate BreaksAt(sha: Hash, norm: FloatText, c: ChainInput, k: nat, fault: Reason) {
    && k < |c.rows| && Linked(sha, norm, c.genesis, c.rows[..k])
    && RowFault(sha, norm, LastHash(c.genesis, c.rows[..k]), c.rows[k]) == Some(fault)
  }

  lemma BreakUnlinks(sha: Hash, norm: FloatText, c: ChainInput, k: nat, fault: Reason)
    requires k < |c.rows| && Linked(sha, norm, c.genesis, c.rows[..k])
    requires RowFault(sha, norm, LastHash(c.genesis, c.rows[..k]), c.rows[k]) == Some(fault)
    ensures BreaksAt(sha, norm, c, k, fault) && !Linked(sha, norm, c.genesis, c.rows)
  {
    LinkedStep(sha, norm, c.genesis, c.rows, k);
    NotLinked(sha, norm, c.genesis, c.rows, k + 1);
  }

  /** The verdict on a chain: sound, or its first break: the first faulty row and its fault; or else a wrong count; or
      else a wrong tip. */
  ghost predicate VerdictOf(sha: Hash, norm: FloatText, c: ChainInput, v: Verdict) {
    && v.month == c.month && v.rowCount == |c.rows|
    && (v.ok <==> Sound(sha, norm, c))
    && (v.ok <==> v.reason == Intact)
    && (v.reason in {LinkageBroken, CanonicalisationFailed, RowTampered} ==>
          exists k: nat :: BreaksAt(sha, norm, c, k, v.reason) && v.breakId == c.rows[k].core.id)
    && (v.reason == CountMismatch <==> Linked(sha, norm, c.genesis, c.rows) && |c.rows| != c.rowCount)
    && (v.reason == TipMismatch <==>
          && Linked(sha, norm, c.genesis, c.rows) && |c.rows| == c.rowCount
          && c.tip != [] && LastHash(c.genesis, c.rows) != c.tip)
    && (v.reason in {Intact, CountMismatch, TipMismatch} ==> v.breakId == 0)
    && v.reason != NoAnchor
  }

  /** Recompute a chain from its genesis and report the first break. */
  method VerifyChain(sha: Hash, norm: FloatText, c: ChainInput) returns (v: Verdict)
    ensures VerdictOf(sha, norm, c, v)
  {
    v := Verdict(c.month, |c.rows|, true, Intact, 0);
    var prev := c.genesis;
    var i := 0;
    while i < |c.rows|
      invariant 0 <= i <= |c.rows|
      invariant prev == LastHash(c.genesis, c.rows[..i])
      invariant Linked(sha, norm, c.genesis, c.rows[..i])
    {
      var row := c.rows[i];
      var fault := CheckRow(sha, norm, prev, row);
      LinkedStep(sha, norm, c.genesis, c.rows, i);
      if fault.Some? {
        BreakUnlinks(sha, norm, c, i, fault.value);
        return v.(ok := false, reason := fault.value, breakId := row.core.id);
      }
      prev := row.rowHash;
      i := i + 1;
    }
    assert c.rows[..|c.rows|] == c.rows;
    if |c.rows| != c.rowCount {
      return v.(ok := false, reason := CountMismatch);
    }
    if c.tip != [] && prev != c.tip {
      return v.(ok := false, reason := TipMismatch);
    }
  }

  lemma NotLinked(sha: Hash, norm: FloatText, prev: Bytes, rows: seq<VerifyRow>, n: nat)
    requires n <= |rows| && !Linked(sha, norm, prev, rows[..n])
    ensures !Linked(sha, norm, prev, rows)
  {
    if Linked(sha, norm, prev, rows) {
      LinkedPrefix(sha, norm, prev, rows, n);
    }
  }

  // ---- what verification takes on trust ----

  /** The chain of some content from some starting hash. */
  function Rechained(sha: Hash, norm: FloatText, genesis: Bytes, cores: seq<Core>): (rows: seq<VerifyRow>)
    requires forall c | c in cores :: CanonicalCore(norm, c).Some?
    ensures |rows| == |cores|
  {
    if cores == [] then []
    else
      var n := |cores| - 1;
      var rows := Rechained(sha, norm, genesis, cores[..n]);
      var prev := LastHash(genesis, rows);
      rows + [VerifyRow(cores[n], prev, RowHash(sha, prev, CanonicalCore(norm, cores[n]).value))]
  }

  /** The starting hash is the manifest's: whatever it is, and whatever the content, some chain from it verifies. */
  lemma {:induction false} AnyGenesisVerifies(
    sha: Hash, norm: FloatText, teamId: Bytes, month: Month, genesis: Bytes, cores: seq<Core>)
    requires forall c | c in cores :: CanonicalCore(norm, c).Some?
    ensures var rows := Rechained(sha, norm, genesis, cores);
            Sound(sha, norm, ChainInput(teamId, month, genesis, LastHash(genesis, rows), |rows|, rows))
    decreases |cores|
  {
    if cores == [] {
    } else {
      var n := |cores| - 1;
      AnyGenesisVerifies(sha, norm, teamId, month, genesis, cores[..n]);
      var rows := Rechained(sha, norm, genesis, cores);
      assert cores[n] in cores && rows[..n] == Rechained(sha, norm, genesis, cores[..n]);
    }
  }

  /** Without a tip in the anchor a chain cut short verifies too, if the count is cut with it. */
  lemma EmptyTipVerifies(sha: Hash, norm: FloatText, c: ChainInput, n: nat)
    requires Sound(sha, norm, c) && n <= |c.rows|
    ensures Sound(sha, norm, c.(tip := [], rowCount := n, rows := c.rows[..n]))
  {
    LinkedPrefix(sha, norm, c.genesis, c.rows, n);
  }

  // ---- tamper evidence ----

  ghost predicate Collision(sha: Hash, x: Bytes, y: Bytes) {
    x != y && sha(x) == sha(y)
  }

  /** The same number of rows carrying, one by one, the same canonical bytes. */
  ghost predicate SameRows(norm: FloatText, a: seq<VerifyRow>, b: seq<VerifyRow>) {
    && |a| == |b|
    && forall i | 0 <= i < |a| :: CanonicalCore(norm, a[i].core) == CanonicalCore(norm, b[i].core)
  }

  function Separators(s: Bytes): nat {
    if s == [] then 0 else (if s[0] == UNIT_SEPARATOR then 1 else 0) + Separators(s[1..])
  }

  lemma {:induction false} SeparatorsConcat(s: Bytes, t: Bytes)
    ensures Separators(s + t) == Separators(s) + Separators(t)
  {
    if s == [] {
      assert s + t == t;
    } else {
      assert (s + t)[1..] == s[1..] + t;
      SeparatorsConcat(s[1..], t);
    }
  }

  lemma {:induction false} NoSeparators(s: Bytes)
    requires NoSeparator(s)
    ensures Separators(s) == 0
  {
    if s == [] {
    } else {
      assert s[0] in s;
      NoSeparators(s[1..]);
    }
  }

  lemma {:induction false} JoinSeparators(fields: seq<Bytes>)
    requires fields != []
    ensures Separators(Join(fields)) >= |fields| - 1
  {
    if |fields| <= 1 {
    } else {
      JoinSeparators(fields[1..]);
      SeparatorsConcat(fields[0], [UNIT_SEPARATOR] + Join(fields[1..]));
      SeparatorsConcat([UNIT_SEPARATOR], Join(fields[1..]));
    }
  }

  lemma ThreePieces(a: Bytes, b: Bytes, c: Bytes)
    requires NoSeparator(a) && NoSeparator(b) && NoSeparator(c)
    ensures Separators(a + [UNIT_SEPARATOR] + b + [UNIT_SEPARATOR] + c) == 2
  {
    NoSeparators(a);
    NoSeparators(b);
    NoSeparators(c);
    var sep := [UNIT_SEPARATOR];
    SeparatorsConcat(a + sep + b + sep, c);
    SeparatorsConcat(a + sep + b, sep);
    SeparatorsConcat(a + sep, b);
    SeparatorsConcat(a, sep);
  }

  /** A genesis text is never a predecessor hash followed by a canonical core. */
  lemma GenesisApart(norm: FloatText, teamId: Bytes, month: Month, prev: Bytes, core: Core)
    requires NoSeparator(teamId) && CanonicalCore(norm, core).Some?
    ensures prev + CanonicalCore(norm, core).value != GenesisText(teamId, month)
  {
    CoreSeparators(norm, core);
    SeparatorsConcat(prev, CanonicalCore(norm, core).value);
    GenesisSeparators(teamId, month);
  }

  lemma GenesisSeparators(teamId: Bytes, month: Month)
    requires NoSeparator(teamId)
    ensures Separators(GenesisText(teamId, month)) == 2
  {
    LabelPlain(month);
    ThreePieces(CHAIN_DOMAIN, teamId, MonthLabel(month));
  }

  lemma CoreSeparators(norm: FloatText, core: Core)
    requires CanonicalCore(norm, core).Some?
    ensures Separators(CanonicalCore(norm, core).value) >= 13
  {
    JoinSeparators(FieldTexts(core, CanonicalJson(norm, core.args).value, CanonicalJson(norm, core.result).value));
  }

  lemma LinkedDigest(sha: Hash, norm: FloatText, genesis: Digest, rows: seq<VerifyRow>)
    requires Linked(sha, norm, genesis, rows)
    ensures |LastHash(genesis, rows)| == 32
  {
  }

  /** A non-empty chain never ends in its own genesis hash, short of a collision. */
  lemma NoReturn(sha: Hash, norm: FloatText, teamId: Bytes, month: Month, rows: seq<VerifyRow>)
    returns (x: Bytes, y: Bytes)
    requires NoSeparator(teamId) && rows != []
    requires Linked(sha, norm, GenesisHash(sha, teamId, month), rows)
    requires LastHash(GenesisHash(sha, teamId, month), rows) == GenesisHash(sha, teamId, month)
    ensures Collision(sha, x, y)
  {
    var k := |rows| - 1;
    var prev := LastHash(GenesisHash(sha, teamId, month), rows[..k]);
    GenesisApart(norm, teamId, month, prev, rows[k].core);
    x, y := prev + CanonicalCore(norm, rows[k].core).value, GenesisText(teamId, month);
  }

  /** A predecessor hash has a fixed width, so it and the core cannot trade bytes. */
  lemma UniqueSplit(p: Bytes, c: Bytes, q: Bytes, d: Bytes)
    requires |p| == |q| && p + c == q + d
    ensures p == q && c == d
  {
    assert (p + c)[..|p|] == p && (q + d)[..|q|] == q;
    assert (p + c)[|p|..] == c && (q + d)[|q|..] == d;
  }

  /** Two rows with one hash have one predecessor and one content, or their hashed texts collide. */
  lemma SameHashSameRow(sha: Hash, norm: FloatText, p: Bytes, r: VerifyRow, q: Bytes, s: VerifyRow)
    returns (x: Bytes, y: Bytes)
    requires Follows(sha, norm, p, r) && Follows(sha, norm, q, s) && r.rowHash == s.rowHash && |p| == |q|
    ensures (p == q && CanonicalCore(norm, r.core) == CanonicalCore(norm, s.core)) || Collision(sha, x, y)
  {
    var c, d := CanonicalCore(norm, r.core).value, CanonicalCore(norm, s.core).value;
    x, y := p + c, q + d;
    if x == y {
      UniqueSplit(p, c, q, d);
    }
  }

  lemma SameRowsSnoc(norm: FloatText, a: seq<VerifyRow>, b: seq<VerifyRow>)
    requires a != [] && b != [] && SameRows(norm, a[..|a| - 1], b[..|b| - 1])
    requires CanonicalCore(norm, a[|a| - 1].core) == CanonicalCore(norm, b[|b| - 1].core)
    ensures SameRows(norm, a, b)
  {
    forall k | 0 <= k < |a|
      ensures CanonicalCore(norm, a[k].core) == CanonicalCore(norm, b[k].core)
    {
      if k < |a| - 1 {
        assert a[k] == a[..|a| - 1][k] && b[k] == b[..|b| - 1][k];
      }
    }
  }

  /** Chains that end in one hash end in one row and agree before it, or a collision comes out. */
  lemma LastRowEvidence(sha: Hash, norm: FloatText, genesis: Digest, a: seq<VerifyRow>, b: seq<VerifyRow>)
    returns (x: Bytes, y: Bytes)
    requires a != [] && b != [] && LastHash(genesis, a) == LastHash(genesis, b)
    requires Linked(sha, norm, genesis, a) && Linked(sha, norm, genesis, b)
    ensures var p, q := a[..|a| - 1], b[..|b| - 1];
            || Collision(sha, x, y)
            || (&& CanonicalCore(norm, a[|a| - 1].core) == CanonicalCore(norm, b[|b| - 1].core)
                && LastHash(genesis, p) == LastHash(genesis, q)
                && Linked(sha, norm, genesis, p) && Linked(sha, norm, genesis, q))
  {
    var p, q := a[..|a| - 1], b[..|b| - 1];
    LinkedDigest(sha, norm, genesis, p);
    LinkedDigest(sha, norm, genesis, q);
    x, y := SameHashSameRow(sha, norm, LastHash(genesis, p), a[|a| - 1], LastHash(genesis, q), b[|b| - 1]);
  }

  /** Tamper evidence. Two chains of one team and month that verify against the same tip carry the same
      rows in the same order, or two texts with equal SHA-256 come out. Their lengths need not be assumed
      equal: the tip alone pins the number of rows. */
  lemma {:induction false} TamperEvidence(
    sha: Hash, norm: FloatText, teamId: Bytes, month: Month, a: seq<VerifyRow>, b: seq<VerifyRow>)
    returns (x: Bytes, y: Bytes)
    requires NoSeparator(teamId)
    requires Linked(sha, norm, GenesisHash(sha, teamId, month), a)
    requires Linked(sha, norm, GenesisHash(sha, teamId, month), b)
    requires LastHash(GenesisHash(sha, teamId, month), a) == LastHash(GenesisHash(sha, teamId, month), b)
    ensures SameRows(norm, a, b) || Collision(sha, x, y)
    decreases |a|
  {
    var genesis := GenesisHash(sha, teamId, month);
    x, y := [], [];
    if a == [] && b == [] {
    } else if a == [] {
      x, y := NoReturn(sha, norm, teamId, month, b);
    } else if b == [] {
      x, y := NoReturn(sha, norm, teamId, month, a);
    } else {
      x, y := LastRowEvidence(sha, norm, genesis, a, b);
      if !Collision(sha, x, y) {
        x, y := TamperEvidence(sha, norm, teamId, month, a[..|a| - 1], b[..|b| - 1]);
        if SameRows(norm, a[..|a| - 1], b[..|b| - 1]) {
          SameRowsSnoc(norm, a, b);
        }
      }
    }
  }

  /** Rows belong to one chain: if they link from the genesis of one team and month and from that of another, there
      are none, or a collision comes out. */
  lemma OwnChainOnly(
    sha: Hash, norm: FloatText, teamId: Bytes, month: Month, teamId': Bytes, month': Month, rows: seq<VerifyRow>)
    returns (x: Bytes, y: Bytes)
    requires NoSeparator(teamId) && NoSeparator(teamId') && (teamId != teamId' || month != month')
    requires Linked(sha, norm, GenesisHash(sha, teamId, month), rows)
    requires Linked(sha, norm, GenesisHash(sha, teamId', month'), rows)
    ensures rows == [] || Collision(sha, x, y)
  {
    x, y := GenesisText(teamId, month), GenesisText(teamId', month');
    GenesisTextIff(teamId, month, teamId', month');
    if rows != [] {
      FirstLink(sha, norm, GenesisHash(sha, teamId, month), rows);
      FirstLink(sha, norm, GenesisHash(sha, teamId', month'), rows);
    }
  }

  lemma FirstLink(sha: Hash, norm: FloatText, genesis: Bytes, rows: seq<VerifyRow>)
    requires Linked(sha, norm, genesis, rows) && rows != []
    ensures rows[0].prevHash == genesis
  {
    LinkedPrefix(sha, norm, genesis, rows, 1);
    LinkedStep(sha, norm, genesis, rows, 0);
    assert rows[..0] == [];
  }

  /** Read off the rows: two exports that verify against one anchor say the same thing row by row. */
  lemma SameRowsSayTheSame(norm: FloatText, a: seq<VerifyRow>, b: seq<VerifyRow>, i: nat)
    requires SameRows(norm, a, b) && i < |a|
    requires CanonicalCore(norm, a[i].core).Some?
    ensures ContentOf(norm, a[i].core) == ContentOf(norm, b[i].core)
  {
    CoreRoundTrip(norm, a[i].core);
    CoreRoundTrip(norm, b[i].core);
  }
}
