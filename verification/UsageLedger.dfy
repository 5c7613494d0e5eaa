/** The allocation ledger: one row per pod, written by two observers that race. Every write is one guarded SQL
    statement, so a step here is a statement; the wall clock it reads is a parameter. */
module UsageLedger {
  import opened Bytes

  datatype App = App(team: string, app: string)

  datatype Reason = Terminated | Deleted | ReconciledMissing

  datatype Interval = Interval(
    pod: string, app: App, cpu: int, memory: int, gpu: int, started: int, ended: Option<int>, lastSeen: int,
    estimated: bool, reason: Option<Reason>, created: int, closedAt: Option<int>)

  datatype Op =
    | Open(pod: string, app: App, cpu: int, memory: int, gpu: int, started: int, lastSeen: int)
    | Close(pod: string, end: int, estimated: bool, reason: Reason)
    | Reopen(pod: string, seen: int)
    | Touch(pods: set<string>, seen: int)

  datatype Event = Event(op: Op, now: int)

  function Greatest(a: int, b: int): int {
    if a < b then b else a
  }

  /** The table's check constraints. */
  predicate Checks(r: Interval) {
    && (r.ended.Some? ==> r.ended.value >= r.started)
    && (r.ended.None? <==> r.reason.None?)
    && r.cpu >= 0 && r.memory >= 0 && r.gpu >= 0
  }

  function NewRow(op: Op, now: int): Interval
    requires op.Open?
  {
    Interval(op.pod, op.app, op.cpu, op.memory, op.gpu, op.started, None, op.lastSeen, false, None, now, None)
  }

  /** The WHERE clause of an update. */
  predicate Matches(r: Interval, op: Op) {
    match op
    case Open(_, _, _, _, _, _, _) => false
    case Close(pod, _, _, _) => r.pod == pod && r.ended.None?
    case Reopen(pod, _) => r.pod == pod && r.reason == Some(ReconciledMissing)
    case Touch(pods, _) => r.ended.None? && r.pod in pods
  }

  /** The SET clause of an update. */
  function Write(r: Interval, op: Op, now: int): Interval {
    match op
    case Open(_, _, _, _, _, _, _) => r
    case Close(_, end, estimated, reason) =>
      r.(ended := Some(end), estimated := estimated, reason := Some(reason),
         lastSeen := Greatest(r.lastSeen, end), closedAt := Some(now))
    case Reopen(_, seen) =>
      r.(ended := None, reason := None, estimated := false, closedAt := None, lastSeen := Greatest(r.lastSeen, seen))
    case Touch(_, seen) => r.(lastSeen := Greatest(r.lastSeen, seen))
  }

  predicate HasPod(rows: seq<Interval>, pod: string) {
    exists i | 0 <= i < |rows| :: rows[i].pod == pod
  }

  /** A statement that would leave a row in breach of a constraint changes nothing. */
  predicate Refused(rows: seq<Interval>, op: Op, now: int) {
    if op.Open? then !Checks(NewRow(op, now))
    else exists i | 0 <= i < |rows| :: Matches(rows[i], op) && !Checks(Write(rows[i], op, now))
  }

  function RowStep(r: Interval, op: Op, now: int): Interval {
    if Matches(r, op) then Write(r, op, now) else r
  }

  function Updated(rows: seq<Interval>, op: Op, now: int): (next: seq<Interval>)
    ensures |next| == |rows| && forall i | 0 <= i < |rows| :: next[i] == RowStep(rows[i], op, now)
  {
    seq(|rows|, i requires 0 <= i < |rows| => RowStep(rows[i], op, now))
  }

  function Step(rows: seq<Interval>, op: Op, now: int): seq<Interval> {
    if Refused(rows, op, now) then rows
    else if op.Open? then (if HasPod(rows, op.pod) then rows else rows + [NewRow(op, now)])
    else Updated(rows, op, now)
  }

  function Run(rows: seq<Interval>, events: seq<Event>): seq<Interval>
    decreases |events|
  {
    if events == [] then rows else Run(Step(rows, events[0].op, events[0].now), events[1..])
  }

  /** How many rows a statement's WHERE clause picks. */
  function Affected(rows: seq<Interval>, op: Op): nat {
    if rows == [] then 0
    else Affected(rows[..|rows| - 1], op) + (if Matches(rows[|rows| - 1], op) then 1 else 0)
  }

  lemma {:induction false} AffectedNone(rows: seq<Interval>, op: Op)
    ensures Affected(rows, op) == 0 <==> forall i | 0 <= i < |rows| :: !Matches(rows[i], op)
  {
    if rows == [] {
    } else {
      AffectedNone(rows[..|rows| - 1], op);
    }
  }

  /** With one row per pod, an update of one pod affects one row or none. */
  lemma {:induction false} AffectedOne(rows: seq<Interval>, op: Op)
    requires OnePerPod(rows) && !op.Touch?
    ensures Affected(rows, op) == if exists i | 0 <= i < |rows| :: Matches(rows[i], op) then 1 else 0
  {
    AffectedNone(rows, op);
    if rows == [] {
    } else {
      var front := rows[..|rows| - 1];
      AffectedOne(front, op);
      AffectedNone(front, op);
    }
  }

  // ---- what a statement leaves in a row ----

  predicate Latest(seen: int, a: int, b: int) {
    seen >= a && seen >= b && (seen == a || seen == b)
  }

  /** The row a close leaves: what it was told and when, and everything else as it was. */
  predicate Closed(was: Interval, row: Interval, end: int, estimated: bool, reason: Reason, at: int) {
    && Latest(row.lastSeen, was.lastSeen, end)
    && row == Interval(was.pod, was.app, was.cpu, was.memory, was.gpu, was.started, Some(end), row.lastSeen,
                       estimated, Some(reason), was.created, Some(at))
  }

  /** An open row again, with no trace of the guess. */
  predicate Reopened(was: Interval, row: Interval, seen: int) {
    && Latest(row.lastSeen, was.lastSeen, seen)
    && row == Interval(was.pod, was.app, was.cpu, was.memory, was.gpu, was.started, None, row.lastSeen,
                       false, None, was.created, None)
  }

  predicate Touched(was: Interval, row: Interval, seen: int) {
    Latest(row.lastSeen, was.lastSeen, seen) && row.(lastSeen := was.lastSeen) == was
  }

  datatype CheckViolation = CheckViolation

  class Ledger {
    var rows: seq<Interval>

    constructor ()
      ensures rows == []
    {
      rows := [];
    }

    /** Insert, or leave a pod already in the ledger alone. */
    method OpenAllocationInterval(pod: string, app: App, cpu: int, memory: int, gpu: int, started: int,
                                  lastSeen: int, now: int)
      returns (r: Result<bool, CheckViolation>)
      modifies this
      ensures rows == Step(old(rows), Open(pod, app, cpu, memory, gpu, started, lastSeen), now)
      ensures r.Err? <==> cpu < 0 || memory < 0 || gpu < 0
      ensures r.Ok? ==> (r.value <==> !HasPod(old(rows), pod))
      ensures rows == old(rows) + if r == Ok(true)
                      then [Interval(pod, app, cpu, memory, gpu, started, None, lastSeen, false, None, now, None)]
                      else []
    {
      if cpu < 0 || memory < 0 || gpu < 0 {
        return Err(CheckViolation);
      }
      var i := 0;
      while i < |rows| && rows[i].pod != pod
        invariant i <= |rows| && forall k | 0 <= k < i :: rows[k].pod != pod
      {
        i := i + 1;
      }
      if i < |rows| {
        return Ok(false);
      }
      rows := rows + [Interval(pod, app, cpu, memory, gpu, started, None, lastSeen, false, None, now, None)];
      return Ok(true);
    }

    /** Runs an update over the table: every matching row or, when one of them would be in breach, none. */
    method Update(op: Op, now: int) returns (r: Result<nat, CheckViolation>)
      requires !op.Open?
      modifies this
      ensures rows == Step(old(rows), op, now)
      ensures r.Err? <==> Refused(old(rows), op, now)
      ensures r.Ok? ==> r.value == Affected(old(rows), op)
    {
      var next: seq<Interval> := [];
      var affected := 0;
      while |next| < |rows|
        invariant |next| <= |rows| && rows == old(rows)
        invariant forall k | 0 <= k < |next| :: next[k] == RowStep(rows[k], op, now)
        invariant forall k | 0 <= k < |next| :: Matches(rows[k], op) ==> Checks(next[k])
        invariant affected == Affected(rows[..|next|], op)
      {
        var row := rows[|next|];
        assert rows[..|next| + 1][..|next|] == rows[..|next|];
        if Matches(row, op) {
          row := Write(row, op, now);
          if !Checks(row) {
            return Err(CheckViolation);
          }
          affected := affected + 1;
        }
        next := next + [row];
      }
      assert next == Updated(rows, op, now) && rows[..|next|] == rows;
      rows := next;
      return Ok(affected);
    }

    /** The first close of an open interval wins; a replayed one reports that it did nothing. */
    method CloseAllocationInterval(pod: string, end: int, estimated: bool, reason: Reason, now: int)
      returns (r: Result<bool, CheckViolation>)
      requires OnePerPod(rows)
      modifies this
      ensures rows == Step(old(rows), Close(pod, end, estimated, reason), now)
      ensures r.Ok? ==> (r.value <==> exists i | 0 <= i < |old(rows)| :: old(rows)[i].pod == pod && old(rows)[i].ended.None?)
      ensures r.Err? <==> Refused(old(rows), Close(pod, end, estimated, reason), now)
      ensures r.Err? ==> rows == old(rows)
      ensures (exists i | 0 <= i < |old(rows)| ::
                 old(rows)[i].pod == pod && old(rows)[i].ended.None? && end < old(rows)[i].started) ==> r.Err?
      ensures r.Ok? ==> |rows| == |old(rows)| && forall i | 0 <= i < |rows| ::
                if old(rows)[i].pod == pod && old(rows)[i].ended.None?
                then Closed(old(rows)[i], rows[i], end, estimated, reason, now)
                else rows[i] == old(rows)[i]
    {
      var op := Close(pod, end, estimated, reason);
      AffectedOne(rows, op);
      assert forall i | 0 <= i < |rows| ::
          rows[i].pod == pod && rows[i].ended.None? && end < rows[i].started ==>
            Matches(rows[i], op) && !Checks(Write(rows[i], op, now));
      var n := Update(op, now);
      if n.Err? {
        return Err(CheckViolation);
      }
      assert forall i | 0 <= i < |old(rows)| ::
          Matches(old(rows)[i], op) <==> old(rows)[i].pod == pod && old(rows)[i].ended.None?;
      return Ok(n.value == 1);
    }

    /** Undoes a close that was only a guess. */
    method ReopenGuessedInterval(pod: string, seen: int, now: int) returns (r: Result<bool, CheckViolation>)
      requires OnePerPod(rows)
      modifies this
      ensures rows == Step(old(rows), Reopen(pod, seen), now)
      ensures r.Err? <==> Refused(old(rows), Reopen(pod, seen), now)
      ensures r.Ok? ==> (r.value <==> exists i | 0 <= i < |old(rows)| ::
                           old(rows)[i].pod == pod && old(rows)[i].reason == Some(ReconciledMissing))
      ensures r.Ok? ==> |rows| == |old(rows)| && forall i | 0 <= i < |rows| ::
                if old(rows)[i].pod == pod && old(rows)[i].reason == Some(ReconciledMissing)
                then Reopened(old(rows)[i], rows[i], seen)
                else rows[i] == old(rows)[i]
    {
      var op := Reopen(pod, seen);
      AffectedOne(rows, op);
      var n := Update(op, now);
      if n.Err? {
        return Err(CheckViolation);
      }
      assert forall i | 0 <= i < |old(rows)| ::
          Matches(old(rows)[i], op) <==> old(rows)[i].pod == pod && old(rows)[i].reason == Some(ReconciledMissing);
      return Ok(n.value == 1);
    }

    method TouchAllocationIntervals(pods: set<string>, seen: int, now: int) returns (r: Result<nat, CheckViolation>)
      modifies this
      ensures rows == Step(old(rows), Touch(pods, seen), now)
      ensures r.Err? <==> Refused(old(rows), Touch(pods, seen), now)
      ensures r.Ok? ==> r.value == Affected(old(rows), Touch(pods, seen))
      ensures r.Ok? ==> |rows| == |old(rows)| && forall i | 0 <= i < |rows| ::
                if old(rows)[i].pod in pods && old(rows)[i].ended.None?
                then Touched(old(rows)[i], rows[i], seen)
                else rows[i] == old(rows)[i]
    {
      if pods == {} {
        assert Updated(rows, Touch(pods, seen), now) == rows;
        AffectedNone(rows, Touch(pods, seen));
        return Ok(0);
      }
      r := Update(Touch(pods, seen), now);
    }
  }

  // ---- what every step keeps ----

  predicate Sane(r: Interval) {
    && Checks(r)
    && (r.ended.None? <==> r.closedAt.None?)
    && (r.ended.Some? ==> r.ended.value <= r.lastSeen)
    && (r.ended.None? ==> !r.estimated)
  }

  ghost predicate OnePerPod(rows: seq<Interval>) {
    forall i, j | 0 <= i < j < |rows| :: rows[i].pod != rows[j].pod
  }

  ghost predicate Inv(rows: seq<Interval>) {
    OnePerPod(rows) && forall i | 0 <= i < |rows| :: Sane(rows[i])
  }

  predicate Authoritative(r: Interval) {
    r.reason == Some(Terminated) || r.reason == Some(Deleted)
  }

  /** How a row may change over time. */
  predicate Evolves(a: Interval, b: Interval) {
    && b.pod == a.pod && b.app == a.app && b.created == a.created && b.started == a.started
    && b.cpu == a.cpu && b.memory == a.memory && b.gpu == a.gpu
    && b.lastSeen >= a.lastSeen
    && (Authoritative(a) ==> b == a)
  }

  ghost predicate RowsEvolve(rows: seq<Interval>, later: seq<Interval>) {
    |rows| <= |later| && forall i | 0 <= i < |rows| :: Evolves(rows[i], later[i])
  }

  lemma RowStepKeeps(r: Interval, op: Op, now: int)
    requires Sane(r) && (Matches(r, op) ==> Checks(Write(r, op, now)))
    ensures Sane(RowStep(r, op, now)) && Evolves(r, RowStep(r, op, now))
  {
  }

  lemma StepKeeps(rows: seq<Interval>, op: Op, now: int)
    requires Inv(rows)
    ensures Inv(Step(rows, op, now)) && RowsEvolve(rows, Step(rows, op, now))
  {
    var next := Step(rows, op, now);
    if !Refused(rows, op, now) && !op.Open? {
      forall i | 0 <= i < |rows|
        ensures Sane(next[i]) && Evolves(rows[i], next[i])
      {
        RowStepKeeps(rows[i], op, now);
      }
    }
  }

  /** Over any interleaving of the observers: one row per pod, rows sane, identity, start and allocation fixed,
      last_seen_at never back, and a close the cluster vouches for never changed again. */
  lemma {:induction false} RunKeeps(rows: seq<Interval>, events: seq<Event>)
    requires Inv(rows)
    ensures Inv(Run(rows, events)) && RowsEvolve(rows, Run(rows, events))
    decreases |events|
  {
    if events == [] {
    } else {
      var next := Step(rows, events[0].op, events[0].now);
      StepKeeps(rows, events[0].op, events[0].now);
      RunKeeps(next, events[1..]);
    }
  }

  lemma RowStepTwice(r: Interval, op: Op, now: int, later: int)
    ensures RowStep(RowStep(r, op, now), op, later) == RowStep(r, op, now)
  {
  }

  /** On a sane ledger only a close can be refused, and exactly when it would end an open interval before its start. */
  lemma RefusedIff(rows: seq<Interval>, op: Op, now: int)
    requires Inv(rows) && !op.Open?
    ensures Refused(rows, op, now) <==>
            op.Close? && exists i | 0 <= i < |rows| ::
              rows[i].pod == op.pod && rows[i].ended.None? && op.end < rows[i].started
  {
    forall i | 0 <= i < |rows| && Matches(rows[i], op)
      ensures Checks(Write(rows[i], op, now)) <==> !(op.Close? && op.end < rows[i].started)
    {
      assert Sane(rows[i]);
    }
    if op.Close? && exists i | 0 <= i < |rows| ::
         rows[i].pod == op.pod && rows[i].ended.None? && op.end < rows[i].started {
      var i :| 0 <= i < |rows| && rows[i].pod == op.pod && rows[i].ended.None? && op.end < rows[i].started;
      assert Matches(rows[i], op) && !Checks(Write(rows[i], op, now));
    }
  }

  /** A statement repeated at once, even later by the clock, changes nothing more. */
  lemma StepTwice(rows: seq<Interval>, op: Op, now: int, later: int)
    ensures Step(Step(rows, op, now), op, later) == Step(rows, op, now)
  {
    var next := Step(rows, op, now);
    if !op.Open? && !Refused(rows, op, now) {
      forall i | 0 <= i < |rows|
        ensures RowStep(next[i], op, later) == next[i]
      {
        RowStepTwice(rows[i], op, now, later);
      }
      assert Updated(next, op, later) == next;
    } else if op.Open? && !Refused(rows, op, now) && !HasPod(rows, op.pod) {
      assert next[|rows|].pod == op.pod;
    } else if !op.Open? {
      assert Refused(next, op, now) && next == rows;
      RefusedStill(rows, op, now, later);
    }
  }

  lemma RefusedStill(rows: seq<Interval>, op: Op, now: int, later: int)
    requires !op.Open? && Refused(rows, op, now)
    ensures Refused(rows, op, later)
  {
    var i :| 0 <= i < |rows| && Matches(rows[i], op) && !Checks(Write(rows[i], op, now));
    assert !Checks(Write(rows[i], op, later));
  }

  /** Whichever close of a pod comes first decides, whatever the others say; only a reopen gives them a chance. */
  lemma FirstCloseWins(rows: seq<Interval>, first: Op, second: Op, now: int, later: int)
    requires first.Close? && second.Close? && first.pod == second.pod
    requires !Refused(rows, first, now)
    ensures Step(Step(rows, first, now), second, later) == Step(rows, first, now)
  {
    var next := Step(rows, first, now);
    assert forall i | 0 <= i < |next| :: !Matches(next[i], second);
    assert Updated(next, second, later) == next;
  }
}
