/** Export: stored rows to wire entries, capped pages with a resume cursor, and the pages merged again. */
module AuditExport {
  import opened Bytes
  import opened CivilTime
  import opened Sorting
  import opened JsonCanon
  import opened AuditCore
  import opened HashChain
  import opened AuditLog
  import JsonLaws
  import JsonString

  // ---- hexadecimal ----

  function HexEncode(b: Bytes): Bytes {
    if b == [] then []
    else [JsonString.HexDigit(b[0] / 16), JsonString.HexDigit(b[0] % 16)] + HexEncode(b[1..])
  }

  /** hex.DecodeString with its error dropped: the bytes decoded before the first bad digit. */
  function HexDecode(s: Bytes): Bytes {
    if |s| < 2 then []
    else match (JsonString.HexValue(s[0]), JsonString.HexValue(s[1]))
      case (Some(hi), Some(lo)) => [hi * 16 + lo] + HexDecode(s[2..])
      case _ => []
  }

  lemma {:induction false} HexRoundTrip(b: Bytes)
    ensures HexDecode(HexEncode(b)) == b
    ensures HexEncode(b) == [] <==> b == []
  {
    if b == [] {
    } else {
      HexRoundTrip(b[1..]);
      assert HexEncode(b)[2..] == HexEncode(b[1..]);
    }
  }

  // ---- wire entries ----

  /** One exported row; the team is named once, in the manifest. Absent documents are []. */
  datatype ExportEntry = ExportEntry(
    id: int,
    time: Time,
    source: Bytes,
    actorUserId: Option<Bytes>,
    action: Bytes,
    subjectType: Bytes,
    subjectId: Option<Bytes>,
    outcome: Bytes,
    previewId: Option<Bytes>,
    traceId: Option<Bytes>,
    httpStatus: Option<int>,
    args: Bytes,
    result: Bytes,
    prevHash: Bytes,
    rowHash: Bytes
  )

  function DropNull(raw: Bytes): Bytes {
    if raw != [] && raw != NULL_TEXT then raw else []
  }

  function NewExportEntry(row: VerifyRow): ExportEntry {
    var c := row.core;
    ExportEntry(c.id, c.createdAt, c.source, c.actorUserId, c.action, c.subjectType, c.subjectId, c.outcome,
                c.previewId, if c.traceId != [] then Some(c.traceId) else None, c.httpStatus,
                DropNull(c.args), DropNull(c.result), HexEncode(row.prevHash), HexEncode(row.rowHash))
  }

  function ToVerifyRow(teamId: Bytes, e: ExportEntry): VerifyRow {
    VerifyRow(
      Core(e.id, teamId, e.actorUserId, e.source, e.subjectType, e.subjectId, e.action, e.args, e.result,
           e.previewId, if e.traceId.Some? then e.traceId.value else [], e.outcome, e.httpStatus, e.time),
      HexDecode(e.prevHash), HexDecode(e.rowHash))
  }

  /** A stored row as the verifier sees it after export. */
  function Exported(row: VerifyRow): VerifyRow {
    ToVerifyRow(row.core.teamId, NewExportEntry(row))
  }

  lemma DropNullCanonical(norm: FloatText, raw: Bytes)
    ensures CanonicalJson(norm, DropNull(raw)) == CanonicalJson(norm, raw)
  {
    JsonLaws.CanonicalNull(norm);
  }

  /** Export then verify sees the same hashes over the same canonical bytes, although null documents and
      the empty trace id are dropped on the way. */
  lemma ExportPreserves(norm: FloatText, row: VerifyRow)
    ensures Exported(row).core == row.core.(args := DropNull(row.core.args), result := DropNull(row.core.result))
    ensures Exported(row).prevHash == row.prevHash && Exported(row).rowHash == row.rowHash
    ensures CanonicalCore(norm, Exported(row).core) == CanonicalCore(norm, row.core)
    ensures NewExportEntry(row).rowHash == [] <==> row.rowHash == []
  {
    HexRoundTrip(row.prevHash);
    HexRoundTrip(row.rowHash);
    DropNullCanonical(norm, row.core.args);
    DropNullCanonical(norm, row.core.result);
    var c, d := row.core, Exported(row).core;
    if CanonicalCore(norm, c).Some? {
      var a, r := CanonicalJson(norm, c.args).value, CanonicalJson(norm, c.result).value;
      assert FieldTexts(d, a, r) == FieldTexts(c, a, r);
    }
  }

  // ---- pages ----

  datatype Cursor = Cursor(createdAt: Time, id: int)

  datatype ExportFilter = ExportFilter(teamId: Bytes, since: Time, until: Time, cursor: Option<Cursor>, limit: nat)

  function RowKey(row: VerifyRow): Key {
    Key(Ticks(row.core.createdAt), row.core.id)
  }

  function CursorKey(c: Cursor): Key {
    Key(Ticks(c.createdAt), c.id)
  }

  predicate InWindow(teamId: Bytes, since: Time, until: Time, row: VerifyRow) {
    row.core.teamId == teamId && Ticks(since) <= Ticks(row.core.createdAt) <= Ticks(until)
  }

  predicate Selected(f: ExportFilter, row: VerifyRow) {
    InWindow(f.teamId, f.since, f.until, row) && (f.cursor.Some? ==> Before(CursorKey(f.cursor.value), RowKey(row)))
  }

  function SelectedBy(f: ExportFilter): VerifyRow -> bool {
    row => Selected(f, row)
  }

  function InWindowOf(teamId: Bytes, since: Time, until: Time): VerifyRow -> bool {
    row => InWindow(teamId, since, until, row)
  }

  /** SELECT ... WHERE ... ORDER BY created_at, id LIMIT. */
  function SelectRows(rows: seq<VerifyRow>, f: ExportFilter): seq<VerifyRow> {
    var all := Sort(RowKey, Filter(SelectedBy(f), rows));
    if f.limit > 0 && |all| > f.limit then all[..f.limit] else all
  }

  /** The rows of a window, each once, by (created_at, id). */
  function Window(rows: seq<VerifyRow>, teamId: Bytes, since: Time, until: Time): seq<VerifyRow> {
    Sort(RowKey, Filter(InWindowOf(teamId, since, until), rows))
  }

  datatype ChainHead = ChainHead(month: Month, head: Head)

  /** The team's chain heads for the months lo to hi, in order. */
  function ListChainHeads(heads: map<ChainKey, Head>, teamId: Bytes, lo: nat, hi: Month): seq<ChainHead>
    decreases hi + 1 - lo
  {
    if lo > hi then []
    else
      (if ChainKey(teamId, lo) in heads then [ChainHead(lo, heads[ChainKey(teamId, lo)])] else [])
      + ListChainHeads(heads, teamId, lo + 1, hi)
  }

  /** Exactly the team's heads of the months lo to hi, once each, in month order. */
  ghost predicate HeadsOf(heads: map<ChainKey, Head>, teamId: Bytes, lo: int, hi: int, listed: seq<ChainHead>) {
    && (forall i, j | 0 <= i < j < |listed| :: listed[i].month < listed[j].month)
    && (forall c | c in listed ::
          && lo <= c.month <= hi && ChainKey(teamId, c.month) in heads && c.head == heads[ChainKey(teamId, c.month)])
    && (forall k | k in heads && k.teamId == teamId && lo <= k.month <= hi :: ChainHead(k.month, heads[k]) in listed)
  }

  lemma {:induction false} HeadsListed(heads: map<ChainKey, Head>, teamId: Bytes, lo: nat, hi: Month)
    ensures HeadsOf(heads, teamId, lo, hi, ListChainHeads(heads, teamId, lo, hi))
    decreases hi + 1 - lo
  {
    if lo > hi {
    } else {
      HeadsListed(heads, teamId, lo + 1, hi);
      HeadFirst(heads, teamId, lo, hi, ListChainHeads(heads, teamId, lo + 1, hi));
    }
  }

  lemma HeadFirst(heads: map<ChainKey, Head>, teamId: Bytes, lo: nat, hi: Month, rest: seq<ChainHead>)
    requires HeadsOf(heads, teamId, lo + 1, hi, rest) && lo <= hi
    ensures var k := ChainKey(teamId, lo);
            HeadsOf(heads, teamId, lo, hi, (if k in heads then [ChainHead(lo, heads[k])] else []) + rest)
  {
    var k := ChainKey(teamId, lo);
    if k in heads {
      HeadCons(heads, teamId, lo, hi, rest);
    } else {
      assert [] + rest == rest;
      forall k' | k' in heads && k'.teamId == teamId && lo <= k'.month <= hi
        ensures ChainHead(k'.month, heads[k']) in rest
      {
        assert k'.month == lo ==> k' == k;
      }
    }
  }

  lemma HeadCons(heads: map<ChainKey, Head>, teamId: Bytes, lo: nat, hi: Month, rest: seq<ChainHead>)
    requires HeadsOf(heads, teamId, lo + 1, hi, rest) && lo <= hi && ChainKey(teamId, lo) in heads
    ensures HeadsOf(heads, teamId, lo, hi, [ChainHead(lo, heads[ChainKey(teamId, lo)])] + rest)
  {
    var first := ChainHead(lo, heads[ChainKey(teamId, lo)]);
    var listed := [first] + rest;
    forall c
      ensures c in listed <==> c == first || c in rest
    {
    }
    forall i, j | 0 <= i < j < |listed|
      ensures listed[i].month < listed[j].month
    {
      assert listed[j] == rest[j - 1] && rest[j - 1] in rest;
      assert i > 0 ==> listed[i] == rest[i - 1];
    }
    forall k | k in heads && k.teamId == teamId && lo <= k.month <= hi
      ensures ChainHead(k.month, heads[k]) in listed
    {
      assert k.month == lo ==> k == ChainKey(teamId, lo);
    }
  }

  datatype ExportRequest = ExportRequest(teamId: Bytes, since: Option<Time>, until: Option<Time>, cursor: Option<Cursor>)

  datatype ExportError = TeamRequired | SinceRequired | SinceAfterUntil | RangeTooLarge

  const EXPORT_MAX_RANGE_MONTHS := 13

  /** The instant `months` calendar months after t: a day past the end of its month runs into the next. */
  function MonthsLater(t: Time, months: nat): int {
    var m := MonthOf(t) + months;
    var days := DaysIn(m / 12, m % 12 + 1);
    var day := if t.day <= days then m * 31 + (t.day - 1) else (m + 1) * 31 + (t.day - days - 1);
    ((day * 24 + t.hour) * 60 + t.minute) * 60 * 1000000000 + t.second * 1000000000 + t.nano
  }

  /** Validation, with the bounds that will be queried. */
  function Bounds(teamId: Bytes, since: Option<Time>, until: Option<Time>, now: Time)
    : Result<(Time, Time), ExportError>
  {
    if teamId == [] then Err(TeamRequired)
    else if since.None? then Err(SinceRequired)
    else
      var hi := if until.Some? then until.value else now;
      if Ticks(since.value) > Ticks(hi) then Err(SinceAfterUntil)
      else if Ticks(hi) > MonthsLater(since.value, EXPORT_MAX_RANGE_MONTHS) then Err(RangeTooLarge)
      else Ok((since.value, hi))
  }

  datatype ExportResult = ExportResult(rows: seq<VerifyRow>, chains: seq<ChainHead>, next: Option<Cursor>)

  function RowsOf(db: Db): seq<VerifyRow> {
    Map((e: Entry) => e.row, db.log)
  }

  /** The first cap rows of a page's selection, and a cursor exactly when more remain. */
  function PageOf(all: seq<VerifyRow>, cap: nat, chains: seq<ChainHead>): ExportResult
    requires cap >= 1
  {
    if |all| > cap then
      ExportResult(all[..cap], chains, Some(Cursor(all[cap - 1].core.createdAt, all[cap - 1].core.id)))
    else ExportResult(all, chains, None)
  }

  function ExportPage(db: Db, cap: nat, teamId: Bytes, since: Time, until: Time, cursor: Option<Cursor>): ExportResult
    requires cap >= 1
  {
    PageOf(SelectRows(RowsOf(db), ExportFilter(teamId, since, until, cursor, 0)), cap,
           ListChainHeads(db.heads, teamId, MonthOf(since), MonthOf(until)))
  }

  /** Asking for one row beyond the cap is enough to tell whether a page is the last. */
  method Export(db: Db, cap: nat, req: ExportRequest, now: Time) returns (r: Result<ExportResult, ExportError>)
    requires cap >= 1
    ensures match Bounds(req.teamId, req.since, req.until, now)
            case Err(e) => r == Err(e)
            case Ok((since, until)) => r == Ok(ExportPage(db, cap, req.teamId, since, until, req.cursor))
    ensures match Bounds(req.teamId, req.since, req.until, now)
            case Err(_) => true
            case Ok((since, until)) =>
              r.Ok? && HeadsOf(db.heads, req.teamId, MonthOf(since), MonthOf(until), r.value.chains)
  {
    var bounds := Bounds(req.teamId, req.since, req.until, now);
    if bounds.Err? {
      return Err(bounds.error);
    }
    var (since, until) := bounds.value;
    var rows := SelectRows(RowsOf(db), ExportFilter(req.teamId, since, until, req.cursor, cap + 1));
    var chains := ListChainHeads(db.heads, req.teamId, MonthOf(since), MonthOf(until));
    ghost var all := SelectRows(RowsOf(db), ExportFilter(req.teamId, since, until, req.cursor, 0));
    HeadsListed(db.heads, req.teamId, MonthOf(since), MonthOf(until));
    SelectLimit(RowsOf(db), ExportFilter(req.teamId, since, until, req.cursor, cap + 1));
    PageFromLimit(all, rows, cap, chains);
    var next := None;
    if |rows| > cap {
      rows := rows[..cap];
      var last := rows[|rows| - 1];
      next := Some(Cursor(last.core.createdAt, last.core.id));
    }
    assert ExportResult(rows, chains, next) == PageOf(all, cap, chains);
    return Ok(ExportResult(rows, chains, next));
  }

  lemma PageFromLimit(all: seq<VerifyRow>, rows: seq<VerifyRow>, cap: nat, chains: seq<ChainHead>)
    requires cap >= 1 && rows == if |all| > cap + 1 then all[..cap + 1] else all
    ensures |rows| > cap <==> |all| > cap
    ensures |rows| > cap ==> rows[..cap] == all[..cap] && rows[..cap][cap - 1] == all[cap - 1]
    ensures |rows| <= cap ==> rows == all
  {
  }

  lemma SelectLimit(rows: seq<VerifyRow>, f: ExportFilter)
    requires f.limit > 0
    ensures var all := SelectRows(rows, f.(limit := 0));
            SelectRows(rows, f) == if |all| > f.limit then all[..f.limit] else all
  {
    FilterSame(SelectedBy(f), SelectedBy(f.(limit := 0)), rows);
  }

  lemma {:induction false} FilterSame<T(!new)>(p: T -> bool, q: T -> bool, s: seq<T>)
    requires forall x | x in s :: p(x) == q(x)
    ensures Filter(p, s) == Filter(q, s)
  {
    if s == [] {
    } else {
      assert s[0] in s;
      FilterSame(p, q, s[1..]);
    }
  }

  // ---- paging ----

  lemma {:induction false} FilterTwice<T(!new)>(p: T -> bool, q: T -> bool, r: T -> bool, s: seq<T>)
    requires forall x | x in s :: r(x) <==> p(x) && q(x)
    ensures Filter(r, s) == Filter(q, Filter(p, s))
  {
    if s == [] {
    } else {
      assert s[0] in s;
      FilterTwice(p, q, r, s[1..]);
      var t := Filter(p, s[1..]);
      assert ([s[0]] + t)[1..] == t && [] + t == t;
    }
  }

  lemma {:induction false} FilterAll<T(!new)>(p: T -> bool, s: seq<T>)
    requires forall x | x in s :: p(x)
    ensures Filter(p, s) == s
  {
    if s == [] {
    } else {
      assert s[0] in s;
      FilterAll(p, s[1..]);
    }
  }

  lemma {:induction false} FilterNone<T(!new)>(p: T -> bool, s: seq<T>)
    requires forall x | x in s :: !p(x)
    ensures Filter(p, s) == []
  {
    if s == [] {
    } else {
      assert s[0] in s;
      FilterNone(p, s[1..]);
    }
  }

  /** In a sorted list, what comes after the key of element k-1 is the rest of the list. */
  lemma FilterAfter<T(!new)>(key: T -> Key, s: seq<T>, k: nat, p: T -> bool)
    requires Sorted(key, s) && 0 < k <= |s|
    requires forall x | x in s :: p(x) <==> Before(key(s[k - 1]), key(x))
    ensures Filter(p, s) == s[k..]
  {
    assert s == s[..k] + s[k..];
    forall x | x in s[..k]
      ensures !p(x)
    {
      var i :| 0 <= i < k && x == s[i];
      assert i < k - 1 ==> Before(key(s[i]), key(s[k - 1]));
    }
    FilterConcat(p, s[..k], s[k..]);
    FilterNone(p, s[..k]);
    FilterAll(p, s[k..]);
  }

  /** A page after the first k rows of a window selects from exactly the rows not yet returned. */
  lemma AfterCursor(rows: seq<VerifyRow>, teamId: Bytes, since: Time, until: Time, k: nat, c: Cursor)
    requires UniqueKeys(RowKey, rows)
    requires var w := Window(rows, teamId, since, until); 0 < k <= |w| && CursorKey(c) == RowKey(w[k - 1])
    ensures SelectRows(rows, ExportFilter(teamId, since, until, Some(c), 0)) == Window(rows, teamId, since, until)[k..]
  {
    var f := ExportFilter(teamId, since, until, Some(c), 0);
    var p := InWindowOf(teamId, since, until);
    var q := (row: VerifyRow) => Before(CursorKey(c), RowKey(row));
    var r := SelectedBy(f);
    FilterTwice(p, q, r, rows);
    FilterUnique(RowKey, p, rows);
    SortFilter(RowKey, q, Filter(p, rows));
    SortSorts(RowKey, Filter(p, rows));
    FilterAfter(RowKey, Sort(RowKey, Filter(p, rows)), k, q);
  }

  lemma FirstPage(rows: seq<VerifyRow>, teamId: Bytes, since: Time, until: Time)
    ensures SelectRows(rows, ExportFilter(teamId, since, until, None, 0)) == Window(rows, teamId, since, until)
  {
    var f := ExportFilter(teamId, since, until, None, 0);
    FilterSame(SelectedBy(f), InWindowOf(teamId, since, until), rows);
  }

  // ---- the client ----

  datatype ChainSummary = ChainSummary(month: Month, genesisHash: Bytes, tipHash: Bytes, rowCount: int)

  datatype Manifest = Manifest(teamId: Bytes, chains: seq<ChainSummary>, rowCount: nat)

  datatype Envelope = Envelope(manifest: Manifest, entries: seq<ExportEntry>)

  function Summary(c: ChainHead): ChainSummary {
    ChainSummary(c.month, HexEncode(c.head.genesis), HexEncode(c.head.tip), c.head.rowCount)
  }

  function Entries(rows: seq<VerifyRow>): seq<ExportEntry> {
    if rows == [] then [] else [NewExportEntry(rows[0])] + Entries(rows[1..])
  }

  lemma {:induction false} EntriesAt(rows: seq<VerifyRow>)
    ensures |Entries(rows)| == |rows|
    ensures forall i | 0 <= i < |rows| :: Entries(rows)[i] == NewExportEntry(rows[i])
  {
    if rows == [] {
    } else {
      EntriesAt(rows[1..]);
    }
  }

  lemma {:induction false} EntriesConcat(a: seq<VerifyRow>, b: seq<VerifyRow>)
    ensures Entries(a) + Entries(b) == Entries(a + b)
  {
    if a == [] {
      assert a + b == b;
    } else {
      assert (a + b)[1..] == a[1..] + b;
      EntriesConcat(a[1..], b);
    }
  }

  /** The whole of a window and the chain heads it touches. */
  function FullExport(db: Db, teamId: Bytes, since: Time, until: Option<Time>, now: Time): Result<Envelope, ExportError> {
    match Bounds(teamId, Some(since), until, now)
    case Err(e) => Err(e)
    case Ok((_, bound)) =>
      var w := Window(RowsOf(db), teamId, since, bound);
      var heads := ListChainHeads(db.heads, teamId, MonthOf(since), MonthOf(bound));
      Ok(Envelope(Manifest(teamId, Map(Summary, heads), |w|), Entries(w)))
  }

  /** The wire form of the heads of the months lo to hi: each as it is, its hashes in hexadecimal. */
  ghost predicate AnchorsOf(heads: map<ChainKey, Head>, teamId: Bytes, lo: int, hi: int, chains: seq<ChainSummary>) {
    && (forall i, j | 0 <= i < j < |chains| :: chains[i].month < chains[j].month)
    && (forall c | c in chains :: lo <= c.month <= hi && ChainKey(teamId, c.month) in heads)
    && (forall k | k in heads && k.teamId == teamId && lo <= k.month <= hi ::
          ChainSummary(k.month, HexEncode(heads[k].genesis), HexEncode(heads[k].tip), heads[k].rowCount) in chains)
  }

  /** A full export's manifest has the anchor of every chain the window's months have, and no other, in month order. */
  lemma FullExportAnchors(db: Db, teamId: Bytes, since: Time, until: Option<Time>, now: Time)
    ensures match FullExport(db, teamId, since, until, now)
            case Err(_) => true
            case Ok(envelope) =>
              AnchorsOf(db.heads, teamId, MonthOf(since), MonthOf(if until.Some? then until.value else now),
                        envelope.manifest.chains)
  {
    if FullExport(db, teamId, since, until, now).Ok? {
      var bound := if until.Some? then until.value else now;
      HeadsListed(db.heads, teamId, MonthOf(since), MonthOf(bound));
      SummariesOf(db.heads, teamId, MonthOf(since), MonthOf(bound),
                  ListChainHeads(db.heads, teamId, MonthOf(since), MonthOf(bound)));
    }
  }

  lemma SummariesOf(heads: map<ChainKey, Head>, teamId: Bytes, lo: int, hi: int, listed: seq<ChainHead>)
    requires HeadsOf(heads, teamId, lo, hi, listed)
    ensures AnchorsOf(heads, teamId, lo, hi, Map(Summary, listed))
  {
    var chains := Map(Summary, listed);
    forall c | c in chains
      ensures lo <= c.month <= hi && ChainKey(teamId, c.month) in heads
    {
      var i :| 0 <= i < |chains| && chains[i] == c;
      assert listed[i] in listed;
    }
    forall k | k in heads && k.teamId == teamId && lo <= k.month <= hi
      ensures ChainSummary(k.month, HexEncode(heads[k].genesis), HexEncode(heads[k].tip), heads[k].rowCount) in chains
    {
      var i :| 0 <= i < |listed| && listed[i] == ChainHead(k.month, heads[k]);
      assert chains[i] in chains;
    }
  }

  lemma {:induction false} LogKeysUnique(db: Db)
    requires LogIds(db)
    ensures UniqueKeys(RowKey, RowsOf(db))
  {
  }

  /** The cursor resumes after the first k rows of w. */
  predicate Resumes(w: seq<VerifyRow>, k: nat, cursor: Option<Cursor>) {
    && k <= |w|
    && match cursor
       case None => k == 0
       case Some(c) => 0 < k && CursorKey(c) == RowKey(w[k - 1])
  }

  /** The page holds the next rows of w after the first k, and its cursor, if there are more, resumes after them. */
  ghost predicate Extends(w: seq<VerifyRow>, k: nat, p: ExportResult) {
    var n := k + |p.rows|;
    && n <= |w| && w[..k] + p.rows == w[..n]
    && (if p.next.Some? then k < n < |w| && Resumes(w, n, p.next) else n == |w|)
  }

  lemma NextRows(w: seq<VerifyRow>, k: nat, cap: nat, chains: seq<ChainHead>)
    requires cap >= 1 && k <= |w|
    ensures Extends(w, k, PageOf(w[k..], cap, chains))
  {
  }

  /** One more page adds the next rows of the window, and its cursor resumes after them. */
  lemma NextPage(db: Db, cap: nat, teamId: Bytes, since: Time, until: Time, k: nat, cursor: Option<Cursor>)
    requires cap >= 1 && LogIds(db)
    requires Resumes(Window(RowsOf(db), teamId, since, until), k, cursor)
    ensures Extends(Window(RowsOf(db), teamId, since, until), k, ExportPage(db, cap, teamId, since, until, cursor))
  {
    var w := Window(RowsOf(db), teamId, since, until);
    var all := SelectRows(RowsOf(db), ExportFilter(teamId, since, until, cursor, 0));
    assert all == w[k..] by {
      LogKeysUnique(db);
      if cursor.Some? {
        AfterCursor(RowsOf(db), teamId, since, until, k, cursor.value);
      } else {
        FirstPage(RowsOf(db), teamId, since, until);
      }
    }
    NextRows(w, k, cap, ListChainHeads(db.heads, teamId, MonthOf(since), MonthOf(until)));
  }

  /** One response of the export endpoint. */
  datatype Page = Page(manifest: Manifest, entries: seq<ExportEntry>, next: Option<Cursor>)

  function WirePage(teamId: Bytes, r: ExportResult): Page {
    Page(Manifest(teamId, Map(Summary, r.chains), |r.rows|), Entries(r.rows), r.next)
  }

  method ExportAudit(db: Db, cap: nat, req: ExportRequest, now: Time) returns (r: Result<Page, ExportError>)
    requires cap >= 1
    ensures match Bounds(req.teamId, req.since, req.until, now)
            case Err(e) => r == Err(e)
            case Ok((since, until)) =>
              r == Ok(WirePage(req.teamId, ExportPage(db, cap, req.teamId, since, until, req.cursor)))
  {
    var result := Export(db, cap, req, now);
    if result.Err? {
      return Err(result.error);
    }
    return Ok(WirePage(req.teamId, result.value));
  }

  /** The merged entries are those of the first rows of w, and next resumes after them. */
  ghost predicate Merged(w: seq<VerifyRow>, entries: seq<ExportEntry>, next: Option<Cursor>) {
    && |entries| <= |w|
    && entries == Entries(w[..|entries|])
    && (if next.Some? then |entries| < |w| && Resumes(w, |entries|, next) else |entries| == |w|)
  }

  /** The entries so far are those of the first rows of w, and the cursor resumes after them. */
  ghost predicate Reached(w: seq<VerifyRow>, entries: seq<ExportEntry>, cursor: Option<Cursor>) {
    |entries| <= |w| && entries == Entries(w[..|entries|]) && Resumes(w, |entries|, cursor)
  }

  lemma MergePage(
    db: Db, cap: nat, teamId: Bytes, since: Time, until: Time, w: seq<VerifyRow>, entries: seq<ExportEntry>,
    cursor: Option<Cursor>, page: Page)
    requires cap >= 1 && LogIds(db) && w == Window(RowsOf(db), teamId, since, until)
    requires Reached(w, entries, cursor)
    requires page == WirePage(teamId, ExportPage(db, cap, teamId, since, until, cursor))
    ensures Merged(w, entries + page.entries, page.next)
    ensures page.next.Some? ==> |page.entries| > 0
  {
    NextPage(db, cap, teamId, since, until, |entries|, cursor);
    MergeRows(w, entries, ExportPage(db, cap, teamId, since, until, cursor));
  }

  lemma {:induction false} EntriesLength(rows: seq<VerifyRow>)
    ensures |Entries(rows)| == |rows|
  {
    if rows == [] {
    } else {
      EntriesLength(rows[1..]);
    }
  }

  lemma MergeRows(w: seq<VerifyRow>, entries: seq<ExportEntry>, p: ExportResult)
    requires |entries| <= |w| && entries == Entries(w[..|entries|]) && Extends(w, |entries|, p)
    ensures Merged(w, entries + Entries(p.rows), p.next)
    ensures p.next.Some? ==> |Entries(p.rows)| > 0
  {
    EntriesConcat(w[..|entries|], p.rows);
    EntriesLength(p.rows);
    EntriesLength(w[..|entries| + |p.rows|]);
  }

  /** The pages after the first, merged behind it. */
  method FetchRest(db: Db, cap: nat, teamId: Bytes, since: Time, until: Option<Time>, now: Time, ghost bound: Time,
                   first: Page)
    returns (entries: seq<ExportEntry>)
    requires cap >= 1 && LogIds(db) && Bounds(teamId, Some(since), until, now) == Ok((since, bound))
    requires first == WirePage(teamId, ExportPage(db, cap, teamId, since, bound, None))
    ensures entries == Entries(Window(RowsOf(db), teamId, since, bound))
  {
    ghost var w := Window(RowsOf(db), teamId, since, bound);
    MergePage(db, cap, teamId, since, bound, w, [], None, first);
    assert [] + first.entries == first.entries;
    entries := first.entries;
    var next := first.next;
    while next.Some?
      invariant Merged(w, entries, next)
      decreases |w| - |entries|
    {
      var page := ExportAudit(db, cap, ExportRequest(teamId, Some(since), until, next), now);
      MergePage(db, cap, teamId, since, bound, w, entries, next, page.value);
      entries, next := entries + page.value.entries, page.value.next;
    }
    assert w[..|w|] == w;
  }

  /** Paging is exact: whatever the cap, the merged pages are the window's rows, each once, in order. */
  method FetchFullExport(db: Db, cap: nat, teamId: Bytes, since: Time, until: Option<Time>, now: Time)
    returns (r: Result<Envelope, ExportError>)
    requires cap >= 1 && LogIds(db)
    ensures r == FullExport(db, teamId, since, until, now)
    ensures r.Ok? ==> AnchorsOf(db.heads, teamId, MonthOf(since), MonthOf(if until.Some? then until.value else now),
                                r.value.manifest.chains)
  {
    FullExportAnchors(db, teamId, since, until, now);
    var page := ExportAudit(db, cap, ExportRequest(teamId, Some(since), until, None), now);
    if page.Err? {
      return Err(page.error);
    }
    ghost var bound := Bounds(teamId, Some(since), until, now).value.1;
    var manifest := page.value.manifest;
    var entries := FetchRest(db, cap, teamId, since, until, now, bound, page.value);
    EntriesLength(Window(RowsOf(db), teamId, since, bound));
    return Ok(Envelope(manifest.(rowCount := |entries|), entries));
  }
}
