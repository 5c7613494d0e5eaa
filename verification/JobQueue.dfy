/** The reconciliation job queue: workers list pending jobs, claim them one at a time by compare-and-set, and finish
    only what they claimed. */
module JobQueue {
  import opened Bytes

  /** A job is retried until this many attempts have been recorded. */
  const MAX_ATTEMPTS: nat := 8

  datatype Status = Pending | InProgress | Completed | FailedPermanently

  datatype Job = Job(attempts: nat, nextAttempt: Option<int>, lastError: Option<string>, status: Status,
                     completedAt: Option<int>)

  function NullIfEmpty(s: string): Option<string> {
    if s == "" then None else Some(s)
  }

  function Stamp(j: Job, now: int): Option<int> {
    if j.completedAt.Some? then j.completedAt else Some(now)
  }

  predicate Terminal(j: Job) {
    j.status == Completed || j.status == FailedPermanently
  }

  // ---- the statements ----

  function CompleteJob(j: Job, now: int): Job {
    if j.status != FailedPermanently then j.(status := Completed, completedAt := Stamp(j, now)) else j
  }

  function RescheduleJob(j: Job, msg: string, next: int): Job {
    j.(attempts := j.attempts + 1, nextAttempt := Some(next), lastError := NullIfEmpty(msg), status := Pending)
  }

  function FailJob(j: Job, msg: string, now: int): Job {
    j.(status := FailedPermanently, lastError := NullIfEmpty(msg), completedAt := Stamp(j, now))
  }

  type Jobs = map<string, Job>

  class JobTable {
    var jobs: Jobs

    constructor ()
      ensures jobs == map[]
    {
      jobs := map[];
    }

    /** Of any number of claims made on a pending job, the first is told yes and the others no. */
    method Claim(id: string) returns (claimed: bool)
      modifies this
      ensures claimed <==> id in old(jobs) && old(jobs)[id].status == Pending
      ensures jobs == if claimed then old(jobs)[id := old(jobs)[id].(status := InProgress)] else old(jobs)
    {
      claimed := id in jobs && jobs[id].status == Pending;
      if claimed {
        jobs := jobs[id := jobs[id].(status := InProgress)];
      }
    }

    method Complete(id: string, now: int)
      modifies this
      ensures jobs == if id in old(jobs) then old(jobs)[id := CompleteJob(old(jobs)[id], now)] else old(jobs)
    {
      if id in jobs && jobs[id].status != FailedPermanently {
        var j := jobs[id];
        jobs := jobs[id := j.(status := Completed, completedAt := if j.completedAt.Some? then j.completedAt else Some(now))];
      }
    }

    method Reschedule(id: string, msg: string, next: int)
      modifies this
      ensures jobs == if id in old(jobs) then old(jobs)[id := RescheduleJob(old(jobs)[id], msg, next)] else old(jobs)
    {
      if id in jobs {
        var j := jobs[id];
        j := j.(attempts := j.attempts + 1, nextAttempt := Some(next));
        jobs := jobs[id := j.(lastError := if msg == "" then None else Some(msg), status := Pending)];
      }
    }

    method FailPermanently(id: string, msg: string, now: int)
      modifies this
      ensures jobs == if id in old(jobs) then old(jobs)[id := FailJob(old(jobs)[id], msg, now)] else old(jobs)
    {
      if id in jobs {
        var j := jobs[id];
        j := j.(status := FailedPermanently, completedAt := if j.completedAt.Some? then j.completedAt else Some(now));
        jobs := jobs[id := j.(lastError := if msg == "" then None else Some(msg))];
      }
    }
  }

  // ---- workers ----

  /** A job as it was when listed. */
  datatype View = View(id: string, attempts: nat)

  datatype Worker = Worker(todo: seq<View>, held: Option<View>)

  const IDLE := Worker([], None)

  datatype Outcome = Done | Broken(msg: string) | Retry(msg: string, next: int)

  datatype Act =
    | Enqueue(id: string, next: Option<int>)
    | ListPending(worker: string, picked: seq<string>)
    | ClaimNext(worker: string)
    | Finish(worker: string, outcome: Outcome)
    | Crash(worker: string)

  datatype Event = Event(act: Act, now: int)

  /** The table, the workers and, for bookkeeping only, how often each job has been rescheduled and how often it was
      claimed on a view older than its latest attempt. */
  datatype System = System(jobs: Jobs, workers: map<string, Worker>, rescheduled: multiset<string>,
                           stale: multiset<string>)

  const EMPTY := System(map[], map[], multiset{}, multiset{})

  function WorkerOf(s: System, w: string): Worker {
    if w in s.workers then s.workers[w] else IDLE
  }

  predicate Due(j: Job, now: int) {
    j.status == Pending && (j.nextAttempt.None? || j.nextAttempt.value <= now)
  }

  /** A worker lists again only when it has worked off its last list; what it lists is pending and due. */
  predicate Enabled(s: System, act: Act, now: int) {
    match act
    case Enqueue(id, _) => id !in s.jobs
    case ListPending(w, picked) =>
      WorkerOf(s, w) == IDLE && forall i | 0 <= i < |picked| :: picked[i] in s.jobs && Due(s.jobs[picked[i]], now)
    case ClaimNext(w) => WorkerOf(s, w).held.None? && WorkerOf(s, w).todo != []
    case Finish(w, _) => WorkerOf(s, w).held.Some?
    case Crash(w) => true
  }

  function Views(jobs: Jobs, picked: seq<string>): seq<View>
    requires forall i | 0 <= i < |picked| :: picked[i] in jobs
  {
    seq(|picked|, i requires 0 <= i < |picked| => View(picked[i], jobs[picked[i]].attempts))
  }

  function Step(s: System, act: Act, now: int): System
    requires Enabled(s, act, now)
  {
    match act
    case Enqueue(id, next) => s.(jobs := s.jobs[id := Job(0, next, None, Pending, None)])
    case ListPending(w, picked) => s.(workers := s.workers[w := Worker(Views(s.jobs, picked), None)])
    case ClaimNext(w) => ClaimStep(s, w)
    case Finish(w, outcome) => FinishStep(s, w, outcome, now)
    case Crash(w) => s.(workers := s.workers[w := IDLE])
  }

  function ClaimStep(s: System, w: string): System
    requires WorkerOf(s, w).todo != []
  {
    var view, rest := WorkerOf(s, w).todo[0], WorkerOf(s, w).todo[1..];
    if view.id in s.jobs && s.jobs[view.id].status == Pending then
      System(s.jobs[view.id := s.jobs[view.id].(status := InProgress)],
             s.workers[w := Worker(rest, Some(view))], s.rescheduled,
             if view.attempts == s.jobs[view.id].attempts then s.stale else s.stale + multiset{view.id})
    else s.(workers := s.workers[w := Worker(rest, None)])
  }

  /** What processJob writes; whether a retry is the last one is judged by the listed view. */
  function Write(j: Job, view: View, outcome: Outcome, now: int): Job {
    match outcome
    case Done => CompleteJob(j, now)
    case Broken(msg) => FailJob(j, msg, now)
    case Retry(msg, next) =>
      if view.attempts + 1 > MAX_ATTEMPTS then FailJob(j, msg, now) else RescheduleJob(j, msg, next)
  }

  function FinishStep(s: System, w: string, outcome: Outcome, now: int): System
    requires WorkerOf(s, w).held.Some?
  {
    var view := WorkerOf(s, w).held.value;
    var released := s.workers[w := WorkerOf(s, w).(held := None)];
    if view.id in s.jobs then
      System(s.jobs[view.id := Write(s.jobs[view.id], view, outcome, now)], released,
             if outcome.Retry? && view.attempts + 1 <= MAX_ATTEMPTS then s.rescheduled + multiset{view.id}
             else s.rescheduled,
             s.stale)
    else s.(workers := released)
  }

  predicate Legal(s: System, events: seq<Event>)
    decreases |events|
  {
    events == [] ||
    (Enabled(s, events[0].act, events[0].now) && Legal(Step(s, events[0].act, events[0].now), events[1..]))
  }

  function Run(s: System, events: seq<Event>): System
    requires Legal(s, events)
    decreases |events|
  {
    if events == [] then s else Run(Step(s, events[0].act, events[0].now), events[1..])
  }

  // ---- what every step keeps ----

  function Held(s: System, w: string): Option<View> {
    WorkerOf(s, w).held
  }

  predicate Holds(s: System, w: string, id: string) {
    Held(s, w).Some? && Held(s, w).value.id == id
  }

  ghost predicate Exclusive(s: System) {
    forall v, w | Held(s, v).Some? && Held(s, w).Some? && v != w :: Held(s, v).value.id != Held(s, w).value.id
  }

  /** A held job is in progress, and if its worker means to retry it once more there is an attempt left, or a claim
      on an outdated view to blame. */
  predicate HolderOk(s: System, w: string) {
    Held(s, w).Some? ==>
      var view := Held(s, w).value;
      && view.id in s.jobs && s.jobs[view.id].status == InProgress
      && (view.attempts + 1 <= MAX_ATTEMPTS ==> s.jobs[view.id].attempts + 1 <= MAX_ATTEMPTS + s.stale[view.id])
  }

  predicate JobOk(s: System, id: string) {
    if id in s.jobs then
      && (s.jobs[id].completedAt.Some? <==> Terminal(s.jobs[id]))
      && s.jobs[id].attempts == s.rescheduled[id]
      && s.jobs[id].attempts <= MAX_ATTEMPTS + s.stale[id]
    else s.rescheduled[id] == 0
  }

  ghost predicate Inv(s: System) {
    Exclusive(s) && (forall w :: HolderOk(s, w)) && (forall id :: JobOk(s, id))
  }

  /** The worker an act concerns. */
  function Actor(act: Act): Option<string> {
    match act
    case Enqueue(_, _) => None
    case ListPending(w, _) => Some(w)
    case ClaimNext(w) => Some(w)
    case Finish(w, _) => Some(w)
    case Crash(w) => Some(w)
  }

  predicate Claims(s: System, act: Act) {
    act.ClaimNext? && WorkerOf(s, act.worker).todo != [] &&
    var id := WorkerOf(s, act.worker).todo[0].id; id in s.jobs && s.jobs[id].status == Pending
  }

  lemma StepHeldBy(s: System, act: Act, now: int, w: string)
    requires Enabled(s, act, now)
    ensures Held(Step(s, act, now), w) ==
            if Actor(act) != Some(w) then Held(s, w)
            else if Claims(s, act) then Some(WorkerOf(s, w).todo[0])
            else None
  {
  }

  lemma StepExclusive(s: System, act: Act, now: int)
    requires Inv(s) && Enabled(s, act, now)
    ensures Exclusive(Step(s, act, now))
  {
    var next := Step(s, act, now);
    forall v, w | Held(next, v).Some? && Held(next, w).Some? && v != w
      ensures Held(next, v).value.id != Held(next, w).value.id
    {
      StepHeldBy(s, act, now, v);
      StepHeldBy(s, act, now, w);
      assert HolderOk(s, v) && HolderOk(s, w);
    }
  }

  /** Only the job an act is about changes. */
  lemma StepOther(s: System, act: Act, now: int, id: string)
    requires Enabled(s, act, now)
    requires !(act.Enqueue? && act.id == id) && !(Claims(s, act) && WorkerOf(s, act.worker).todo[0].id == id)
    requires !(act.Finish? && Holds(s, act.worker, id))
    ensures var next := Step(s, act, now);
            && (id in next.jobs <==> id in s.jobs) && (id in s.jobs ==> next.jobs[id] == s.jobs[id])
            && next.rescheduled[id] == s.rescheduled[id] && next.stale[id] == s.stale[id]
  {
  }

  lemma StepHolderOk(s: System, act: Act, now: int, w: string)
    requires Inv(s) && Enabled(s, act, now)
    ensures HolderOk(Step(s, act, now), w)
  {
    StepHeldBy(s, act, now, w);
    assert HolderOk(s, w);
    if Held(s, w).Some? && Actor(act) != Some(w) {
      var id := Held(s, w).value.id;
      if act.Finish? {
        assert Held(s, act.worker).value.id != id;
      }
      StepOther(s, act, now, id);
    } else if Claims(s, act) && Actor(act) == Some(w) {
      assert JobOk(s, WorkerOf(s, w).todo[0].id);
    }
  }

  lemma FinishJobOk(s: System, w: string, outcome: Outcome, now: int)
    requires Inv(s) && Held(s, w).Some?
    ensures JobOk(FinishStep(s, w, outcome, now), Held(s, w).value.id)
  {
    assert HolderOk(s, w) && JobOk(s, Held(s, w).value.id);
  }

  lemma StepJobOk(s: System, act: Act, now: int, id: string)
    requires Inv(s) && Enabled(s, act, now)
    ensures JobOk(Step(s, act, now), id)
  {
    assert JobOk(s, id);
    if act.Finish? && Holds(s, act.worker, id) {
      FinishJobOk(s, act.worker, act.outcome, now);
    } else if act.Enqueue? && act.id == id {
    } else if !(Claims(s, act) && WorkerOf(s, act.worker).todo[0].id == id) {
      StepOther(s, act, now, id);
    }
  }

  lemma StepInv(s: System, act: Act, now: int)
    requires Inv(s) && Enabled(s, act, now)
    ensures Inv(Step(s, act, now))
  {
    StepExclusive(s, act, now);
    forall w ensures HolderOk(Step(s, act, now), w) {
      StepHolderOk(s, act, now, w);
    }
    forall id ensures JobOk(Step(s, act, now), id) {
      StepJobOk(s, act, now, id);
    }
  }

  /** Over any run of any number of workers, with crashes anywhere: at most one worker holds a job at a time, a held
      job is in progress, completed_at is stamped exactly on the jobs that ended, attempts counts the reschedules,
      and it exceeds the retry cap at most by the claims made on outdated views. */
  lemma {:induction false} RunKeeps(s: System, events: seq<Event>)
    requires Inv(s) && Legal(s, events)
    ensures Inv(Run(s, events))
    decreases |events|
  {
    if events == [] {
    } else {
      StepInv(s, events[0].act, events[0].now);
      RunKeeps(Step(s, events[0].act, events[0].now), events[1..]);
    }
  }

  /** In terms of the table alone, from the empty queue on. */
  lemma AllRuns(events: seq<Event>, id: string, v: string, w: string)
    requires Legal(EMPTY, events)
    ensures var s := Run(EMPTY, events);
            && (Holds(s, v, id) && Holds(s, w, id) ==> v == w && id in s.jobs && s.jobs[id].status == InProgress)
            && (id in s.jobs ==>
                  && (s.jobs[id].completedAt.Some? <==> Terminal(s.jobs[id]))
                  && s.jobs[id].attempts == s.rescheduled[id] <= MAX_ATTEMPTS + s.stale[id])
  {
    RunKeeps(EMPTY, events);
    var s := Run(EMPTY, events);
    assert HolderOk(s, v) && HolderOk(s, w) && JobOk(s, id);
  }

  /** Ended, or in progress with its worker gone. */
  ghost predicate Settled(s: System, id: string) {
    id in s.jobs && (Terminal(s.jobs[id]) || (s.jobs[id].status == InProgress && forall w :: !Holds(s, w, id)))
  }

  lemma StepSettled(s: System, act: Act, now: int, id: string)
    requires Inv(s) && Enabled(s, act, now) && Settled(s, id)
    ensures Settled(Step(s, act, now), id) && Step(s, act, now).jobs[id] == s.jobs[id]
  {
    if act.Finish? {
      assert HolderOk(s, act.worker) && !Holds(s, act.worker, id);
    }
    StepOther(s, act, now, id);
    forall w | s.jobs[id].status == InProgress
      ensures !Holds(Step(s, act, now), w, id)
    {
      StepHeldBy(s, act, now, w);
      assert !Holds(s, w, id);
    }
  }

  /** Completed and failed_permanently are final, down to the stamp; so is the fate of an abandoned job, which no
      later run ever takes up again. */
  lemma {:induction false} RunSettled(s: System, events: seq<Event>, id: string)
    requires Inv(s) && Legal(s, events) && Settled(s, id)
    ensures Settled(Run(s, events), id) && Run(s, events).jobs[id] == s.jobs[id]
    decreases |events|
  {
    if events == [] {
    } else {
      StepSettled(s, events[0].act, events[0].now, id);
      StepInv(s, events[0].act, events[0].now);
      RunSettled(Step(s, events[0].act, events[0].now), events[1..], id);
    }
  }
}
