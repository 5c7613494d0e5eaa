/** The upload request: quota check, then the multipart body, then the row. */
module UploadHandler {
  import opened Bytes
  import opened UploadQuota

  const MAX_PARTS: nat := 10
  const INERT_TTL: int := DAY

  /** What the ingestion store reports of an archive it took in. */
  datatype Stored = Stored(sha256: string, size: int, receivedAt: int)

  /** A part of the body; an archive part comes with what the store made of it. */
  datatype Part = ShaField(value: string) | Archive(stored: Option<Stored>) | OtherField | Malformed

  datatype Response =
    | Created(row: Upload)
    | Unauthorized
    | QuotaExceeded(dimension: Dimension)
    | BadRequest
    | IngestFailed
    | ShaMismatch
    | RecordFailed

  /** Of several sha256 fields the last one counts. */
  function LastSha(parts: seq<Part>): string {
    if parts == [] then ""
    else if parts[|parts| - 1].ShaField? then parts[|parts| - 1].value
    else LastSha(parts[..|parts| - 1])
  }

  /** Within the part limit, every part well formed, and the only archive, in place a, taken in by the store. */
  predicate WellFormed(parts: seq<Part>, a: nat) {
    && |parts| <= MAX_PARTS && a < |parts| && parts[a].Archive? && parts[a].stored.Some?
    && (forall i | 0 <= i < |parts| :: !parts[i].Malformed? && (parts[i].Archive? ==> i == a))
  }

  /** A body that may be recorded. Hashes are compared by a function of the caller's, case apart. */
  predicate Acceptable(parts: seq<Part>, a: nat, sameHash: (string, string) -> bool) {
    && WellFormed(parts, a) && parts[a].stored.value.sha256 != ""
    && (LastSha(parts) == "" || sameHash(LastSha(parts), parts[a].stored.value.sha256))
  }

  method ReadParts(parts: seq<Part>)
    returns (fault: Option<Response>, stored: Option<Stored>, sha: string, ghost a: nat)
    ensures fault.None? ==> sha == LastSha(parts)
    ensures fault.None? && stored.Some? ==> WellFormed(parts, a) && stored == parts[a].stored
    ensures fault.Some? || stored.None? ==> forall k :: !WellFormed(parts, k)
    ensures fault.Some? ==> fault == Some(BadRequest) || fault == Some(IngestFailed)
  {
    fault, stored, sha, a := None, None, "", 0;
    for i := 0 to |parts|
      invariant i <= MAX_PARTS && sha == LastSha(parts[..i])
      invariant stored.Some? ==> a < i && parts[a].Archive? && stored == parts[a].stored
      invariant forall k | 0 <= k < i :: !parts[k].Malformed? && (parts[k].Archive? ==> stored.Some? && k == a)
    {
      assert parts[..i + 1][..i] == parts[..i];
      if parts[i].Malformed? || i + 1 > MAX_PARTS {
        fault := Some(BadRequest);
        return;
      }
      match parts[i] {
        case ShaField(value) => sha := value;
        case Archive(result) =>
          if stored.Some? {
            fault := Some(BadRequest);
            return;
          }
          if result.None? {
            fault := Some(IngestFailed);
            return;
          }
          stored, a := result, i;
        case OtherField =>
      }
    }
    assert parts[..|parts|] == parts;
  }

  /** A request without an actor is refused outright. With one, a row is recorded exactly when the quota check passed
      on the table as it was, the body is acceptable and the id is new; anything else leaves the table alone, and a
      refused quota is reported before the body is looked at. */
  method HandleUpload(table: UploadTable, quotas: Option<Quotas>, team: string, plan: Plan, archive: int,
                      actor: string, id: string, parts: seq<Part>, sameHash: (string, string) -> bool, now: int)
    returns (response: Response)
    modifies table
    ensures response == Unauthorized <==> actor == ""
    ensures var check := CheckUploadQuota(old(table.rows), quotas, team, plan, archive, now);
            && (actor != "" && check.Err? <==> response.QuotaExceeded?)
            && (actor != "" && check.Err? ==> response == QuotaExceeded(check.error))
    ensures response.Created? <==>
            && actor != ""
            && CheckUploadQuota(old(table.rows), quotas, team, plan, archive, now).Ok?
            && (exists a :: Acceptable(parts, a, sameHash)) && !HasId(old(table.rows), id)
    ensures response.Created? ==>
              && table.rows == old(table.rows) + [response.row]
              && forall a: nat | Acceptable(parts, a, sameHash) ::
                   var s := parts[a].stored.value;
                   response.row == Upload(id, team, actor, s.size, s.sha256, Received, None, s.receivedAt + INERT_TTL,
                                          now, None)
    ensures !response.Created? ==> table.rows == old(table.rows)
  {
    if actor == "" {
      return Unauthorized;
    }
    var check := CheckUploadQuota(table.rows, quotas, team, plan, archive, now);
    if check.Err? {
      return QuotaExceeded(check.error);
    }
    var fault, stored, sha, a := ReadParts(parts);
    if fault.Some? {
      return fault.value;
    }
    if stored.None? || stored.value.sha256 == "" {
      return BadRequest;
    }
    if sha != "" && !sameHash(sha, stored.value.sha256) {
      return ShaMismatch;
    }
    var u := NewUpload(id, team, actor, stored.value.size, stored.value.sha256,
                       stored.value.receivedAt + INERT_TTL, now);
    assert Acceptable(parts, a, sameHash);
    var r := table.InsertUpload(u);
    if r.Err? {
      return RecordFailed;
    }
    response := Created(u);
  }

  /** One upload handled on its own is a run of the quota protocol: a check, then an insert or giving up. */
  lemma HandledIsRun(c: Config, rows: seq<Upload>, u: Upload, now: int, recorded: bool)
    requires Passes(c, State(rows, multiset{}), u.team, now) && 0 <= u.size <= c.archive && u.status == Received
    ensures var last := Event(if recorded then Insert(u) else GiveUp(u.team), now);
            var events := [Event(Check(u.team), now), last];
            && Overlap(c, State(rows, multiset{}), events, u.team, 1)
            && Run(c, State(rows, multiset{}), events)
               == State(if recorded then InsertRow(rows, u) else rows, multiset{})
  {
    var last := Event(if recorded then Insert(u) else GiveUp(u.team), now);
    var events := [Event(Check(u.team), now), last];
    var s := State(rows, multiset{});
    var mid := Step(c, s, Check(u.team), now);
    assert mid.flights == multiset{u.team};
    assert events[1..] == [last] && [last][1..] == [];
    assert Step(c, mid, last.act, now).flights == multiset{};
    var end := Step(c, mid, last.act, now);
    assert Overlap(c, end, [], u.team, 1) && Run(c, end, []) == end;
    assert Overlap(c, mid, [last], u.team, 1) && Run(c, mid, [last]) == end;
    assert end.rows == if recorded then InsertRow(rows, u) else rows;
  }
}
