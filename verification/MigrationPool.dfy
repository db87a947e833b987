/**
 The parallel migration runner: batches of schemas on worker threads, each in a child process that
 migrates schema by schema, with one retry that goes on after errors, an in-flight table and a
 monitor.
 */
module MigrationPool {
  import opened Counting
  import opened Outcomes

  /** A batch as printed for the child, and the schemas the child reads; None: it rejects its arguments. */
  datatype Job = Job(batch: seq<string>, targets: Option<seq<string>>)

  datatype Phase =
    | Waiting
    | First(done: nat)                                            // first child, `done` schemas migrated
    | Retry(log: seq<bool>)                                       // second child, one outcome per schema so far
    | Returned(success: bool, log: seq<bool>, exited: bool)       // result known, still in the table
    | Finished(success: bool, log: seq<bool>, exited: bool)
    | Crashed                                                     // the worker raised: no child, or no readable output

  datatype Outcome = Upgraded | UpgradeFailed | ChildExits | ChildDies | WorkerRaises

  datatype Event = Work(worker: nat, outcome: Outcome) | Collect(worker: nat) | Tick

  datatype Pool = Pool(
    phases: seq<Phase>,
    inFlight: map<nat, seq<string>>,
    previous: set<nat>,
    collected: set<nat>,
    allSuccess: bool,
    head: set<string>)

  predicate IsActive(p: Phase) { p.First? || p.Retry? || p.Returned? }

  predicate IsOver(p: Phase) { p.Finished? || p.Crashed? }

  function Active(phases: seq<Phase>): set<nat> {
    set i: nat | i < |phases| && IsActive(phases[i])
  }

  /** What can happen to a child that has dealt with `k` schemas. */
  predicate Possible(job: Job, k: nat, outcome: Outcome) {
    match outcome
    case Upgraded => job.targets.Some? && k < |job.targets.value|
    case UpgradeFailed => job.targets.Some? && k < |job.targets.value|
    case ChildExits => job.targets.Some? && k == |job.targets.value|
    case ChildDies => true
    case WorkerRaises => true
  }

  function Progress(p: Phase): nat {
    match p
    case First(done) => done
    case Retry(log) => |log|
    case _ => 0
  }

  predicate CanWork(jobs: seq<Job>, workers: nat, phases: seq<Phase>, i: nat)
    requires |jobs| == |phases|
  {
    i < |phases| && (IsActive(phases[i]) || (phases[i].Waiting? && |Active(phases)| < workers))
  }

  predicate CanStep(jobs: seq<Job>, workers: nat, s: Pool, e: Event)
    requires |jobs| == |s.phases|
  {
    match e
    case Work(i, outcome) =>
      CanWork(jobs, workers, s.phases, i)
      && (s.phases[i].First? || s.phases[i].Retry? ==> Possible(jobs[i], Progress(s.phases[i]), outcome))
    case Collect(i) => i < |s.phases| && IsOver(s.phases[i]) && i !in s.collected
    case Tick => true
  }

  /** The next phase of a worker, and the schema it brought to head. */
  function WorkerStep(job: Job, p: Phase, outcome: Outcome): (Phase, set<string>)
    requires IsActive(p) || p.Waiting?
    requires p.First? || p.Retry? ==> Possible(job, Progress(p), outcome)
  {
    match p
    case Waiting => (First(0), {})
    case First(done) =>
      (match outcome
       case Upgraded => (First(done + 1), {job.targets.value[done]})
       case UpgradeFailed => (Retry([]), {})
       case ChildExits => (Returned(true, [], true), {})
       case ChildDies => (Retry([]), {})
       case WorkerRaises => (Crashed, {}))
    case Retry(log) =>
      (match outcome
       case Upgraded => (Retry(log + [true]), {job.targets.value[|log|]})
       case UpgradeFailed => (Retry(log + [false]), {})
       case ChildExits => (Returned(false, log, true), {})
       case ChildDies => (Returned(false, log, false), {})
       case WorkerRaises => (Crashed, {}))
    case Returned(success, log, exited) => (Finished(success, log, exited), {})
  }

  function After(jobs: seq<Job>, workers: nat, s: Pool, e: Event): Pool
    requires |jobs| == |s.phases| && CanStep(jobs, workers, s, e)
  {
    match e
    case Work(i, outcome) =>
      var (next, migrated) := WorkerStep(jobs[i], s.phases[i], outcome);
      s.(phases := s.phases[i := next],
         head := s.head + migrated,
         inFlight := if s.phases[i].Waiting? then s.inFlight[i := jobs[i].batch]
                     else if next.Finished? then s.inFlight - {i} else s.inFlight)
    case Collect(i) =>
      s.(collected := s.collected + {i},
         allSuccess := s.allSuccess && s.phases[i].Finished? && s.phases[i].success)
    case Tick => s.(previous := s.inFlight.Keys)
  }

  /** The batches a tick of the monitor reports as still running since the tick before. */
  function Reported(s: Pool): set<nat> {
    s.inFlight.Keys * s.previous
  }

  function Idle(jobs: seq<Job>, head: set<string>): Pool {
    Pool(seq(|jobs|, i => Waiting), map[], {}, {}, true, head)
  }

  function Play(jobs: seq<Job>, workers: nat, head: set<string>, schedule: seq<Event>): (r: Option<Pool>)
    ensures r.Some? ==> |r.value.phases| == |jobs|
  {
    if schedule == [] then Some(Idle(jobs, head))
    else
      var last := |schedule| - 1;
      match Play(jobs, workers, head, schedule[..last])
      case None => None
      case Some(s) =>
        if CanStep(jobs, workers, s, schedule[last]) then Some(After(jobs, workers, s, schedule[last])) else None
  }

  // ---------------------------------------------------------------- the invariant

  /** Every schema a retry has logged as upgraded is at head, whatever happened to those before it. */
  ghost predicate LogHolds(job: Job, log: seq<bool>, head: set<string>) {
    && (job.targets.None? ==> log == [])
    && (job.targets.Some? ==> |log| <= |job.targets.value| && forall j | 0 <= j < |log| && log[j] ::
        job.targets.value[j] in head)
  }

  ghost predicate ResultHolds(job: Job, success: bool, log: seq<bool>, exited: bool, head: set<string>) {
    && LogHolds(job, log, head)
    && (success ==> job.targets.Some? && forall t | t in job.targets.value :: t in head)
    && (!success && exited ==> job.targets.Some? && |log| == |job.targets.value|)
  }

  ghost predicate PhaseHolds(job: Job, p: Phase, head: set<string>) {
    match p
    case Waiting => true
    case Crashed => true
    case First(done) =>
      && (job.targets.None? ==> done == 0)
      && (job.targets.Some? ==> done <= |job.targets.value| && forall j | 0 <= j < done :: job.targets.value[j] in head)
    case Retry(log) => LogHolds(job, log, head)
    case Returned(success, log, exited) => ResultHolds(job, success, log, exited, head)
    case Finished(success, log, exited) => ResultHolds(job, success, log, exited, head)
  }

  predicate InTable(p: Phase) { IsActive(p) || p.Crashed? }

  predicate Succeeded(p: Phase) { p.Finished? && p.success }

  ghost predicate Inv(jobs: seq<Job>, workers: nat, s: Pool) {
    && |s.phases| == |jobs|
    && (forall i | 0 <= i < |jobs| :: PhaseHolds(jobs[i], s.phases[i], s.head))
    && (forall i: nat :: i in s.inFlight <==> i < |jobs| && InTable(s.phases[i]))
    && (forall i | i in s.inFlight :: s.inFlight[i] == jobs[i].batch)
    && |Active(s.phases)| <= workers
    && (forall i | i in s.collected :: i < |jobs| && IsOver(s.phases[i]))
    && (s.allSuccess <==> forall i | i in s.collected :: Succeeded(s.phases[i]))
  }

  lemma {:induction false} PhaseHoldsLater(job: Job, p: Phase, head: set<string>, more: set<string>)
    requires PhaseHolds(job, p, head) && head <= more
    ensures PhaseHolds(job, p, more)
  {}

  lemma {:induction false} WorkerStepHolds(job: Job, p: Phase, outcome: Outcome, head: set<string>)
    requires PhaseHolds(job, p, head)
    requires IsActive(p) || p.Waiting?
    requires p.First? || p.Retry? ==> Possible(job, Progress(p), outcome)
    ensures PhaseHolds(job, WorkerStep(job, p, outcome).0, head + WorkerStep(job, p, outcome).1)
  {
    if p.First? && outcome.ChildExits? {
      forall t | t in job.targets.value
        ensures t in head
      {
        var j :| 0 <= j < |job.targets.value| && job.targets.value[j] == t;
        assert job.targets.value[j] in head;
      }
    }
  }

  lemma {:induction false} ActiveGained(phases: seq<Phase>, i: nat, p: Phase)
    requires i < |phases| && IsActive(p)
    ensures Active(phases[i := p]) == Active(phases) + {i}
  {
    var after := phases[i := p];
    forall j: nat ensures j in Active(after) <==> j in Active(phases) + {i} {
      if j < |phases| { assert after[j] == if j == i then p else phases[j]; }
    }
  }

  lemma {:induction false} ActiveLost(phases: seq<Phase>, i: nat, p: Phase)
    requires i < |phases| && !IsActive(p)
    ensures Active(phases[i := p]) == Active(phases) - {i}
  {
    var after := phases[i := p];
    forall j: nat ensures j in Active(after) <==> j in Active(phases) - {i} {
      if j < |phases| { assert after[j] == if j == i then p else phases[j]; }
    }
  }

  lemma {:induction false} ActiveAfter(phases: seq<Phase>, i: nat, p: Phase)
    requires i < |phases|
    ensures IsActive(phases[i]) && IsActive(p) ==> |Active(phases[i := p])| == |Active(phases)|
    ensures !IsActive(phases[i]) && IsActive(p) ==> |Active(phases[i := p])| == |Active(phases)| + 1
    ensures !IsActive(p) ==> |Active(phases[i := p])| <= |Active(phases)|
  {
    assert i in Active(phases) <==> IsActive(phases[i]);
    if IsActive(p) {
      ActiveGained(phases, i, p);
      assert i in Active(phases) ==> Active(phases) + {i} == Active(phases);
    } else {
      ActiveLost(phases, i, p);
      SubsetSize(Active(phases) - {i}, Active(phases));
    }
  }

  /** A step of the worker of batch `i` keeps what every phase promises. */
  lemma {:induction false} WorkKeepsPhases(jobs: seq<Job>, workers: nat, s: Pool, i: nat, outcome: Outcome)
    requires Inv(jobs, workers, s) && CanStep(jobs, workers, s, Work(i, outcome))
    ensures var s' := After(jobs, workers, s, Work(i, outcome));
            forall j | 0 <= j < |jobs| :: PhaseHolds(jobs[j], s'.phases[j], s'.head)
  {
    var s' := After(jobs, workers, s, Work(i, outcome));
    WorkerStepHolds(jobs[i], s.phases[i], outcome, s.head);
    forall j | 0 <= j < |jobs|
      ensures PhaseHolds(jobs[j], s'.phases[j], s'.head)
    {
      if j != i { PhaseHoldsLater(jobs[j], s.phases[j], s.head, s'.head); }
    }
  }

  /** It keeps the table of batches in flight: they are those that have begun and not returned, or crashed. */
  lemma {:induction false} WorkKeepsTable(jobs: seq<Job>, workers: nat, s: Pool, i: nat, outcome: Outcome)
    requires Inv(jobs, workers, s) && CanStep(jobs, workers, s, Work(i, outcome))
    ensures var s' := After(jobs, workers, s, Work(i, outcome));
            && |s'.phases| == |jobs|
            && (forall j: nat :: j in s'.inFlight <==> j < |jobs| && InTable(s'.phases[j]))
            && (forall j | j in s'.inFlight :: s'.inFlight[j] == jobs[j].batch)
  {
  }

  /** Every step of a worker, the collector or the monitor keeps the invariant. */
  lemma {:induction false} StepKeepsInv(jobs: seq<Job>, workers: nat, s: Pool, e: Event)
    requires Inv(jobs, workers, s) && CanStep(jobs, workers, s, e)
    ensures Inv(jobs, workers, After(jobs, workers, s, e))
  {
    if e.Work? {
      var i := e.worker;
      WorkKeepsPhases(jobs, workers, s, i, e.outcome);
      WorkKeepsTable(jobs, workers, s, i, e.outcome);
      ActiveAfter(s.phases, i, WorkerStep(jobs[i], s.phases[i], e.outcome).0);
      assert i !in s.collected;
    }
  }

  lemma {:induction false} PlayKeepsInv(jobs: seq<Job>, workers: nat, head: set<string>, schedule: seq<Event>)
    requires Play(jobs, workers, head, schedule).Some?
    ensures Inv(jobs, workers, Play(jobs, workers, head, schedule).value)
    ensures head <= Play(jobs, workers, head, schedule).value.head
  {
    if schedule == [] {
      assert Active(Idle(jobs, head).phases) == {};
    } else {
      var last := |schedule| - 1;
      PlayKeepsInv(jobs, workers, head, schedule[..last]);
      StepKeepsInv(jobs, workers, Play(jobs, workers, head, schedule[..last]).value, schedule[last]);
    }
  }

  // ---------------------------------------------------------------- results

  /** Each schema a child of this job was told to migrate is at head. */
  ghost predicate Migrated(job: Job, head: set<string>) {
    job.targets.Some? && forall t | t in job.targets.value :: t in head
  }

  /**
   The answer for any schedule: once every batch's result has been collected, it is True exactly
   when every first child exited cleanly, and then every schema is at head. A failed batch's retry
   that ran to its end tried every schema, and each one whose own upgrade succeeded is at head.
   */
  lemma {:induction false} TrueMeansMigrated(jobs: seq<Job>, workers: nat, head: set<string>, schedule: seq<Event>)
    requires Play(jobs, workers, head, schedule).Some?
    requires forall i: nat | i < |jobs| :: i in Play(jobs, workers, head, schedule).value.collected
    ensures var s := Play(jobs, workers, head, schedule).value;
            && (s.allSuccess <==> forall i | 0 <= i < |jobs| :: Succeeded(s.phases[i]))
            && (s.allSuccess ==> forall i | 0 <= i < |jobs| :: Migrated(jobs[i], s.head))
            && s.inFlight.Keys == set i: nat | i < |jobs| && s.phases[i].Crashed?
            && forall i | 0 <= i < |jobs| && s.phases[i].Finished? && !s.phases[i].success ::
                 LogHolds(jobs[i], s.phases[i].log, s.head)
                 && (s.phases[i].exited ==> jobs[i].targets.Some? && |s.phases[i].log| == |jobs[i].targets.value|)
  {
    PlayKeepsInv(jobs, workers, head, schedule);
  }

  /** Event `k` of the schedule is the step of a child that brings `t` to head. */
  ghost predicate BringsAt(jobs: seq<Job>, workers: nat, head: set<string>, schedule: seq<Event>, k: nat, t: string) {
    && k < |schedule| && schedule[k].Work?
    && Play(jobs, workers, head, schedule[..k]).Some?
    && Brings(jobs, workers, Play(jobs, workers, head, schedule[..k]).value, schedule[k], t)
  }

  predicate Brings(jobs: seq<Job>, workers: nat, s: Pool, e: Event, t: string)
    requires |jobs| == |s.phases| && e.Work?
  {
    CanStep(jobs, workers, s, e) && t in WorkerStep(jobs[e.worker], s.phases[e.worker], e.outcome).1
  }

  /** What is at head was there before the run or was brought there by some child of it. */
  lemma {:induction false} HeadIsHistory(jobs: seq<Job>, workers: nat, head: set<string>, schedule: seq<Event>,
                                         t: string)
    requires Play(jobs, workers, head, schedule).Some?
    ensures t in Play(jobs, workers, head, schedule).value.head <==>
              t in head || exists k :: BringsAt(jobs, workers, head, schedule, k, t)
  {
    if schedule != [] {
      var last := |schedule| - 1;
      var before := schedule[..last];
      HeadIsHistory(jobs, workers, head, before, t);
      forall k: nat | k < last
        ensures BringsAt(jobs, workers, head, schedule, k, t) <==> BringsAt(jobs, workers, head, before, k, t)
      {
        assert schedule[..k] == before[..k];
      }
      var s := Play(jobs, workers, head, before).value;
      assert BringsAt(jobs, workers, head, schedule, last, t) <==>
        schedule[last].Work? && Brings(jobs, workers, s, schedule[last], t);
      assert t in After(jobs, workers, s, schedule[last]).head
        <==> t in s.head || (schedule[last].Work? && Brings(jobs, workers, s, schedule[last], t));
    }
  }

  /** Event `k` ends the first child of batch `i` badly. */
  ghost predicate FailsAt(jobs: seq<Job>, workers: nat, head: set<string>, schedule: seq<Event>, i: nat, k: nat) {
    k < |schedule| && i < |jobs| && Play(jobs, workers, head, schedule[..k]).Some?
    && EndsBadly(Play(jobs, workers, head, schedule[..k]).value, schedule[k], i)
  }

  /** The event is that the first child of batch `i` meets a failed upgrade or dies, or that its worker raises. */
  predicate EndsBadly(s: Pool, e: Event, i: nat)
    requires i < |s.phases|
  {
    && e.Work? && e.worker == i && s.phases[i].First?
    && (e.outcome.UpgradeFailed? || e.outcome.ChildDies? || e.outcome.WorkerRaises?)
  }

  /** The first child of the batch has ended badly. */
  predicate Spoiled(p: Phase) {
    match p
    case Waiting => false
    case First(_) => false
    case Returned(success, _, _) => !success
    case Finished(success, _, _) => !success
    case _ => true
  }

  lemma {:induction false} StepSpoils(jobs: seq<Job>, workers: nat, s: Pool, e: Event, i: nat)
    requires |s.phases| == |jobs| && CanStep(jobs, workers, s, e) && i < |jobs|
    ensures Spoiled(After(jobs, workers, s, e).phases[i]) <==>
              Spoiled(s.phases[i]) || EndsBadly(s, e, i)
  {}

  /** A first child has ended badly exactly when some event of the schedule ended it so. */
  lemma {:induction false} FailureIsHistory(jobs: seq<Job>, workers: nat, head: set<string>, schedule: seq<Event>,
                                            i: nat)
    requires Play(jobs, workers, head, schedule).Some? && i < |jobs|
    ensures Spoiled(Play(jobs, workers, head, schedule).value.phases[i]) <==>
              exists k :: FailsAt(jobs, workers, head, schedule, i, k)
  {
    if schedule != [] {
      var last := |schedule| - 1;
      var before := schedule[..last];
      FailureIsHistory(jobs, workers, head, before, i);
      forall k: nat | k < last
        ensures FailsAt(jobs, workers, head, schedule, i, k) <==> FailsAt(jobs, workers, head, before, i, k)
      {
        assert schedule[..k] == before[..k];
      }
      var s, e := Play(jobs, workers, head, before).value, schedule[last];
      StepSpoils(jobs, workers, s, e, i);
      assert FailsAt(jobs, workers, head, schedule, i, last) <==> EndsBadly(s, e, i);
    }
  }

  /**
   When the answer False is too pessimistic, for any schedule: some event ended a first child badly, yet
   every schema was at head before or was brought there by some child.
   */
  lemma {:induction false} FalseThoughMigratedIff(jobs: seq<Job>, workers: nat, head: set<string>, schedule: seq<Event>)
    requires Play(jobs, workers, head, schedule).Some?
    requires forall i: nat | i < |jobs| :: i in Play(jobs, workers, head, schedule).value.collected
    ensures var s := Play(jobs, workers, head, schedule).value;
            !s.allSuccess && (forall i | 0 <= i < |jobs| :: Migrated(jobs[i], s.head)) <==>
              && (exists i, k :: FailsAt(jobs, workers, head, schedule, i, k))
              && (forall i | 0 <= i < |jobs| :: AllBrought(jobs, workers, head, schedule, jobs[i]))
  {
    PlayKeepsInv(jobs, workers, head, schedule);
    FalseIff(jobs, workers, head, schedule);
    forall i | 0 <= i < |jobs|
      ensures Migrated(jobs[i], Play(jobs, workers, head, schedule).value.head) <==>
                AllBrought(jobs, workers, head, schedule, jobs[i])
    {
      MigratedIsHistory(jobs, workers, head, schedule, jobs[i]);
    }
  }

  /** Every schema of the job was at head before or some event brought it there. */
  ghost predicate AllBrought(jobs: seq<Job>, workers: nat, head: set<string>, schedule: seq<Event>, job: Job) {
    job.targets.Some? && forall t | t in job.targets.value ::
      t in head || exists k :: BringsAt(jobs, workers, head, schedule, k, t)
  }

  lemma {:induction false} MigratedIsHistory(jobs: seq<Job>, workers: nat, head: set<string>, schedule: seq<Event>,
                                             job: Job)
    requires Play(jobs, workers, head, schedule).Some?
    ensures Migrated(job, Play(jobs, workers, head, schedule).value.head) <==>
              AllBrought(jobs, workers, head, schedule, job)
  {
    forall t
      ensures t in Play(jobs, workers, head, schedule).value.head <==>
                t in head || exists k :: BringsAt(jobs, workers, head, schedule, k, t)
    {
      HeadIsHistory(jobs, workers, head, schedule, t);
    }
  }

  lemma {:induction false} FalseIff(jobs: seq<Job>, workers: nat, head: set<string>, schedule: seq<Event>)
    requires Play(jobs, workers, head, schedule).Some?
    requires forall i: nat | i < |jobs| :: i in Play(jobs, workers, head, schedule).value.collected
    ensures Play(jobs, workers, head, schedule).value.allSuccess <==>
              !exists i, k :: FailsAt(jobs, workers, head, schedule, i, k)
  {
    PlayKeepsInv(jobs, workers, head, schedule);
    var s := Play(jobs, workers, head, schedule).value;
    forall i: nat | i < |jobs|
      ensures Succeeded(s.phases[i]) <==> !exists k :: FailsAt(jobs, workers, head, schedule, i, k)
    {
      assert i in s.collected && IsOver(s.phases[i]);
      FailureIsHistory(jobs, workers, head, schedule, i);
    }
    if s.allSuccess {
      forall i: nat, k: nat ensures !FailsAt(jobs, workers, head, schedule, i, k) {
        assert i < |jobs| ==> i in s.collected && Succeeded(s.phases[i]);
      }
    } else {
      var i :| i in s.collected && !Succeeded(s.phases[i]);
      assert exists k :: FailsAt(jobs, workers, head, schedule, i, k);
    }
  }

  /** A pool with the one batch of one schema, before anything is collected. */
  function Alone(schema: string, p: Phase, inTable: bool, head: set<string>): Pool {
    Pool([p], if inTable then map[0 := [schema]] else map[], {}, {}, true, head)
  }

  function OneJob(schema: string): Job { Job([schema], Some([schema])) }

  /** One step of that batch's worker, from `p` and `head` to `next` and `more`. */
  lemma {:induction false} AloneSteps(schema: string, before: seq<Event>, p: Phase, inTable: bool, head: set<string>,
                                      outcome: Outcome,
                   next: Phase, more: set<string>) returns (longer: seq<Event>)
    requires IsActive(p) || p.Waiting?
    requires p.First? || p.Retry? ==> Possible(OneJob(schema), Progress(p), outcome)
    requires WorkerStep(OneJob(schema), p, outcome).0 == next
    requires head + WorkerStep(OneJob(schema), p, outcome).1 == more
    requires Play([OneJob(schema)], 1, {}, before) == Some(Alone(schema, p, inTable, head))
    ensures Play([OneJob(schema)], 1, {}, longer)
         == Some(Alone(schema, next, p.Waiting? || (inTable && !next.Finished?), more))
  {
    if p.Waiting? { assert Active([p]) == {}; }
    longer := PlaySnoc([OneJob(schema)], 1, {}, before, Alone(schema, p, inTable, head), Work(0, outcome));
    AloneAfter(schema, p, inTable, head, outcome, next, more);
  }

  lemma {:induction false} AloneAfter(schema: string, p: Phase, inTable: bool, head: set<string>, outcome: Outcome,
                                      next: Phase, more: set<string>)
    requires IsActive(p) || p.Waiting?
    requires p.First? || p.Retry? ==> Possible(OneJob(schema), Progress(p), outcome)
    requires WorkerStep(OneJob(schema), p, outcome).0 == next
    requires head + WorkerStep(OneJob(schema), p, outcome).1 == more
    requires CanStep([OneJob(schema)], 1, Alone(schema, p, inTable, head), Work(0, outcome))
    ensures After([OneJob(schema)], 1, Alone(schema, p, inTable, head), Work(0, outcome))
         == Alone(schema, next, p.Waiting? || (inTable && !next.Finished?), more)
  {
    assert [p][0 := next] == [next];
    var table: map<nat, seq<string>> := map[0 := [schema]];
    assert table - {0} == map[];
  }

  /** False promises nothing the other way: the retry may have repaired the only failure. */
  lemma {:induction false} FalseMayStillBeMigrated(schema: string) returns (schedule: seq<Event>)
    ensures var jobs := [Job([schema], Some([schema]))];
            && Play(jobs, 1, {}, schedule).Some?
            && (var s := Play(jobs, 1, {}, schedule).value;
                s.collected == {0} && !s.allSuccess && Migrated(jobs[0], s.head))
  {
    var first := FailsOnce(schema);
    schedule := RetryReturns(schema, first);
  }

  lemma {:induction false} FailsOnce(schema: string) returns (schedule: seq<Event>)
    ensures Play([OneJob(schema)], 1, {}, schedule) == Some(Alone(schema, Retry([]), true, {}))
  {
    assert Idle([OneJob(schema)], {}) == Alone(schema, Waiting, false, {});
    schedule := AloneSteps(schema, [], Waiting, false, {}, ChildDies, First(0), {});
    schedule := AloneSteps(schema, schedule, First(0), true, {}, UpgradeFailed, Retry([]), {});
  }

  lemma {:induction false} RetryReturns(schema: string, before: seq<Event>) returns (schedule: seq<Event>)
    requires Play([OneJob(schema)], 1, {}, before) == Some(Alone(schema, Retry([]), true, {}))
    ensures Play([OneJob(schema)], 1, {}, schedule).Some?
    ensures var s := Play([OneJob(schema)], 1, {}, schedule).value;
            s.collected == {0} && !s.allSuccess && Migrated(OneJob(schema), s.head)
  {
    var done, log := {schema}, [true];
    schedule := AloneSteps(schema, before, Retry([]), true, {}, Upgraded, Retry(log), done);
    schedule := AloneSteps(schema, schedule, Retry(log), true, done, ChildExits, Returned(false, log, true), done);
    schedule := AloneSteps(schema, schedule, Returned(false, log, true), true, done, ChildDies,
        Finished(false, log, true), done);
    schedule := PlaySnoc([OneJob(schema)], 1, {}, schedule, Alone(schema, Finished(false, log, true), false, done),
        Collect(0));
  }

  lemma {:induction false} PlaySnoc(jobs: seq<Job>, workers: nat, head: set<string>, schedule: seq<Event>, s: Pool,
                                    e: Event)
    returns (longer: seq<Event>)
    requires Play(jobs, workers, head, schedule) == Some(s)
    requires |s.phases| == |jobs| && CanStep(jobs, workers, s, e)
    ensures Play(jobs, workers, head, longer) == Some(After(jobs, workers, s, e))
  {
    longer := schedule + [e];
    assert longer[..|schedule|] == schedule;
  }

  // ---------------------------------------------------------------- the monitor

  lemma {:induction false} PrefixPlays(jobs: seq<Job>, workers: nat, head: set<string>, schedule: seq<Event>, k: nat)
    requires k <= |schedule| && Play(jobs, workers, head, schedule).Some?
    ensures Play(jobs, workers, head, schedule[..k]).Some?
  {
    if k == |schedule| {
      assert schedule[..k] == schedule;
    } else {
      assert schedule[..|schedule| - 1][..k] == schedule[..k];
      PrefixPlays(jobs, workers, head, schedule[..|schedule| - 1], k);
    }
  }

  /** The pool after the first `k` events. */
  ghost function At(jobs: seq<Job>, workers: nat, head: set<string>, schedule: seq<Event>, k: nat): (s: Pool)
    requires k <= |schedule| && Play(jobs, workers, head, schedule).Some?
    ensures |s.phases| == |jobs|
  {
    PrefixPlays(jobs, workers, head, schedule, k);
    Play(jobs, workers, head, schedule[..k]).value
  }

  lemma {:induction false} AtNext(jobs: seq<Job>, workers: nat, head: set<string>, schedule: seq<Event>, k: nat)
    requires k < |schedule| && Play(jobs, workers, head, schedule).Some?
    ensures CanStep(jobs, workers, At(jobs, workers, head, schedule, k), schedule[k])
    ensures At(jobs, workers, head, schedule, k + 1)
                == After(jobs, workers, At(jobs, workers, head, schedule, k), schedule[k])
  {
    PrefixPlays(jobs, workers, head, schedule, k + 1);
    assert schedule[..k + 1][..k] == schedule[..k];
  }

  /** A worker never goes back to waiting, and once over it stays exactly as it is. */
  lemma {:induction false} PhasesOnlyAdvance(jobs: seq<Job>, workers: nat, head: set<string>, schedule: seq<Event>,
                                             i: nat, a: nat, b: nat)
    requires Play(jobs, workers, head, schedule).Some? && i < |jobs| && a <= b <= |schedule|
    ensures !At(jobs, workers, head, schedule, a).phases[i].Waiting? ==>
              !At(jobs, workers, head, schedule, b).phases[i].Waiting?
    ensures IsOver(At(jobs, workers, head, schedule, a).phases[i])
            ==> At(jobs, workers, head, schedule, b).phases[i] == At(jobs, workers, head, schedule, a).phases[i]
    decreases b - a
  {
    if a < b {
      PhasesOnlyAdvance(jobs, workers, head, schedule, i, a, b - 1);
      AtNext(jobs, workers, head, schedule, b - 1);
    }
  }

  lemma {:induction false} AtKeepsInv(jobs: seq<Job>, workers: nat, head: set<string>, schedule: seq<Event>, k: nat)
    requires k <= |schedule| && Play(jobs, workers, head, schedule).Some?
    ensures Inv(jobs, workers, At(jobs, workers, head, schedule, k))
  {
    PrefixPlays(jobs, workers, head, schedule, k);
    PlayKeepsInv(jobs, workers, head, schedule[..k]);
  }

  /** A batch enters the in-flight table at most once and leaves it at most once. */
  lemma {:induction false} InTableIsAnInterval(jobs: seq<Job>, workers: nat, head: set<string>, schedule: seq<Event>,
                            i: nat, a: nat, b: nat, c: nat)
    requires Play(jobs, workers, head, schedule).Some? && a <= b <= c <= |schedule|
    requires i in At(jobs, workers, head, schedule, a).inFlight && i in At(jobs, workers, head, schedule, c).inFlight
    ensures i in At(jobs, workers, head, schedule, b).inFlight
  {
    AtKeepsInv(jobs, workers, head, schedule, a);
    AtKeepsInv(jobs, workers, head, schedule, b);
    AtKeepsInv(jobs, workers, head, schedule, c);
    PhasesOnlyAdvance(jobs, workers, head, schedule, i, a, b);
    PhasesOnlyAdvance(jobs, workers, head, schedule, i, b, c);
    BetweenTwo(jobs, workers, At(jobs, workers, head, schedule, a), At(jobs, workers, head, schedule, b),
               At(jobs, workers, head, schedule, c), i);
  }

  /** Begun at the first moment and not finished at the last, a batch is neither waiting nor finished between. */
  lemma {:induction false} BetweenTwo(jobs: seq<Job>, workers: nat, a: Pool, b: Pool, c: Pool, i: nat)
    requires Inv(jobs, workers, a) && Inv(jobs, workers, b) && Inv(jobs, workers, c)
    requires i in a.inFlight && i in c.inFlight
    requires !a.phases[i].Waiting? ==> !b.phases[i].Waiting?
    requires IsOver(b.phases[i]) ==> c.phases[i] == b.phases[i]
    ensures i in b.inFlight
  {
    assert InTable(a.phases[i]) && InTable(c.phases[i]);
  }

  /** `previous` is the table as the last tick saw it. */
  lemma {:induction false} PreviousIsLastTick(jobs: seq<Job>, workers: nat, head: set<string>, schedule: seq<Event>,
                                              n: nat, i: nat) returns (m: nat)
    requires Play(jobs, workers, head, schedule).Some? && n <= |schedule|
    requires i in At(jobs, workers, head, schedule, n).previous
    ensures m < n && schedule[m].Tick? && i in At(jobs, workers, head, schedule, m).inFlight
    ensures forall k | m < k < n :: !schedule[k].Tick?
    decreases n
  {
    NoTickYet(jobs, workers, head, schedule);
    AtNext(jobs, workers, head, schedule, n - 1);
    if schedule[n - 1].Tick? {
      m := n - 1;
    } else {
      m := PreviousIsLastTick(jobs, workers, head, schedule, n - 1, i);
    }
  }

  lemma {:induction false} NoTickYet(jobs: seq<Job>, workers: nat, head: set<string>, schedule: seq<Event>)
    requires Play(jobs, workers, head, schedule).Some?
    ensures At(jobs, workers, head, schedule, 0).previous == {}
  {
    assert schedule[..0] == [];
  }

  /**
   What a tick's report means: the batch has been in the table without a gap since the tick
   before, and it has been running all that time if and only if its worker has not crashed, for
   a crash leaves the entry behind.
   */
  lemma {:induction false} ReportedSinceLastTick(jobs: seq<Job>, workers: nat, head: set<string>,
                                                 schedule: seq<Event>, n: nat, i: nat)
    returns (m: nat)
    requires Play(jobs, workers, head, schedule).Some? && n < |schedule| && schedule[n].Tick?
    requires i in Reported(At(jobs, workers, head, schedule, n))
    ensures m < n && schedule[m].Tick? && i < |jobs|
    ensures forall k | m < k < n :: !schedule[k].Tick?
    ensures forall k | m <= k <= n :: i in At(jobs, workers, head, schedule, k).inFlight
    ensures !At(jobs, workers, head, schedule, n).phases[i].Crashed?
            <==> forall k | m <= k <= n :: IsActive(At(jobs, workers, head, schedule, k).phases[i])
  {
    m := PreviousIsLastTick(jobs, workers, head, schedule, n, i);
    AtKeepsInv(jobs, workers, head, schedule, n);
    forall k | m <= k <= n
      ensures i in At(jobs, workers, head, schedule, k).inFlight
      ensures InTable(At(jobs, workers, head, schedule, k).phases[i])
      ensures At(jobs, workers, head, schedule, k).phases[i].Crashed? ==>
                At(jobs, workers, head, schedule, n).phases[i].Crashed?
    {
      InTableIsAnInterval(jobs, workers, head, schedule, i, m, k, n);
      AtKeepsInv(jobs, workers, head, schedule, k);
      PhasesOnlyAdvance(jobs, workers, head, schedule, i, k, n);
    }
    if !At(jobs, workers, head, schedule, n).phases[i].Crashed? {
      forall k | m <= k <= n
        ensures IsActive(At(jobs, workers, head, schedule, k).phases[i])
      {
        assert InTable(At(jobs, workers, head, schedule, k).phases[i]);
      }
    } else {
      assert !IsActive(At(jobs, workers, head, schedule, n).phases[i]);
    }
  }

  lemma {:induction false} PreviousIs(jobs: seq<Job>, workers: nat, head: set<string>, schedule: seq<Event>, m: nat,
                                      n: nat)
    requires Play(jobs, workers, head, schedule).Some? && m < n <= |schedule| && schedule[m].Tick?
    requires forall k | m < k < n :: !schedule[k].Tick?
    ensures At(jobs, workers, head, schedule, n).previous == At(jobs, workers, head, schedule, m).inFlight.Keys
    decreases n
  {
    AtNext(jobs, workers, head, schedule, n - 1);
    if m < n - 1 { PreviousIs(jobs, workers, head, schedule, m, n - 1); }
  }

  /** A tick reports exactly the batches that are in the table now and were in it at the tick before. */
  lemma {:induction false} ReportedIff(jobs: seq<Job>, workers: nat, head: set<string>, schedule: seq<Event>, m: nat,
                                       n: nat, i: nat)
    requires Play(jobs, workers, head, schedule).Some? && m < n < |schedule|
    requires schedule[m].Tick? && schedule[n].Tick? && forall k | m < k < n :: !schedule[k].Tick?
    ensures i in Reported(At(jobs, workers, head, schedule, n)) <==>
              i in At(jobs, workers, head, schedule, m).inFlight && i in At(jobs, workers, head, schedule, n).inFlight
  {
    PreviousIs(jobs, workers, head, schedule, m, n);
  }

  /** A batch whose worker raised is in the table for good: every later pair of ticks reports it. */
  lemma {:induction false} CrashedStaysInTable(jobs: seq<Job>, workers: nat, head: set<string>, schedule: seq<Event>,
                                               i: nat, a: nat, b: nat)
    requires Play(jobs, workers, head, schedule).Some? && i < |jobs| && a <= b <= |schedule|
    requires At(jobs, workers, head, schedule, a).phases[i].Crashed?
    ensures i in At(jobs, workers, head, schedule, b).inFlight
  {
    PhasesOnlyAdvance(jobs, workers, head, schedule, i, a, b);
    AtKeepsInv(jobs, workers, head, schedule, b);
  }

  // ---------------------------------------------------------------- progress

  function Targets(job: Job): nat {
    if job.targets.Some? then |job.targets.value| else 0
  }

  /** Steps this batch can still take, its collection included. */
  function Rank(job: Job, p: Phase, collected: bool): nat {
    var n := Targets(job);
    if collected then 0
    else match p
      case Waiting => 2 * n + 6
      case First(done) => n + 5 + (if done < n then n - done else 0)
      case Retry(log) => 4 + (if |log| < n then n - |log| else 0)
      case Returned(_, _, _) => 3
      case Finished(_, _, _) => 1
      case Crashed => 1
  }

  function TotalRank(jobs: seq<Job>, phases: seq<Phase>, collected: set<nat>): nat
    requires |jobs| == |phases|
  {
    if jobs == [] then 0
    else
      var last := |jobs| - 1;
      TotalRank(jobs[..last], phases[..last], collected) + Rank(jobs[last], phases[last], last in collected)
  }

  lemma {:induction false} RankDrops(jobs: seq<Job>, phases: seq<Phase>, collected: set<nat>,
                                     phases': seq<Phase>, collected': set<nat>, i: nat)
    requires |jobs| == |phases| == |phases'| && i < |jobs|
    requires forall j: nat | j < |jobs| && j != i :: phases'[j] == phases[j] && (j in collected' <==> j in collected)
    requires Rank(jobs[i], phases'[i], i in collected') < Rank(jobs[i], phases[i], i in collected)
    ensures TotalRank(jobs, phases', collected') < TotalRank(jobs, phases, collected)
  {
    var last := |jobs| - 1;
    if i == last {
      SameRank(jobs[..last], phases[..last], collected, phases'[..last], collected');
    } else {
      RankDrops(jobs[..last], phases[..last], collected, phases'[..last], collected', i);
    }
  }

  lemma {:induction false} SameRank(jobs: seq<Job>, phases: seq<Phase>, collected: set<nat>, phases': seq<Phase>,
                                    collected': set<nat>)
    requires |jobs| == |phases| == |phases'|
    requires forall j: nat | j < |jobs| :: phases'[j] == phases[j] && (j in collected' <==> j in collected)
    ensures TotalRank(jobs, phases', collected') == TotalRank(jobs, phases, collected)
  {
    if jobs != [] {
      var last := |jobs| - 1;
      SameRank(jobs[..last], phases[..last], collected, phases'[..last], collected');
    }
  }

  lemma {:induction false} WorkerRankDrops(job: Job, p: Phase, outcome: Outcome, head: set<string>)
    requires PhaseHolds(job, p, head) && (IsActive(p) || p.Waiting?)
    requires p.First? || p.Retry? ==> Possible(job, Progress(p), outcome)
    ensures Rank(job, WorkerStep(job, p, outcome).0, false) < Rank(job, p, false)
  {
  }

  /** Every event other than a tick brings the run closer to its end. */
  lemma {:induction false} StepDropsRank(jobs: seq<Job>, workers: nat, s: Pool, e: Event)
    requires Inv(jobs, workers, s) && CanStep(jobs, workers, s, e) && !e.Tick?
    ensures var s' := After(jobs, workers, s, e);
            TotalRank(jobs, s'.phases, s'.collected) < TotalRank(jobs, s.phases, s.collected)
  {
    var s' := After(jobs, workers, s, e);
    var i := e.worker;
    if e.Work? {
      assert i !in s.collected;
      WorkerRankDrops(jobs[i], s.phases[i], e.outcome, s.head);
    }
    RankDrops(jobs, s.phases, s.collected, s'.phases, s'.collected, i);
  }

  /** While a result is missing, some worker or the collector can move. */
  lemma {:induction false} NeverStuck(jobs: seq<Job>, workers: nat, s: Pool)
    requires Inv(jobs, workers, s) && workers >= 1
    requires exists i: nat :: i < |jobs| && i !in s.collected
    ensures exists i: nat :: i < |jobs|
                && (CanWork(jobs, workers, s.phases, i) || (IsOver(s.phases[i]) && i !in s.collected))
  {
    var i: nat :| i < |jobs| && i !in s.collected;
    if s.phases[i].Waiting? && Active(s.phases) != {} {
      var j :| j in Active(s.phases);
      assert CanWork(jobs, workers, s.phases, j);
    } else {
      assert CanWork(jobs, workers, s.phases, i) || IsOver(s.phases[i]);
    }
  }

  lemma {:induction false} RestIsComplete(jobs: seq<Job>, workers: nat, s: Pool)
    requires Inv(jobs, workers, s) && workers >= 1
    requires forall i: nat | i < |jobs| ::
                !(CanWork(jobs, workers, s.phases, i) || (IsOver(s.phases[i]) && i !in s.collected))
    ensures forall i: nat | i < |jobs| :: i in s.collected
  {
    if exists i: nat :: i < |jobs| && i !in s.collected {
      NeverStuck(jobs, workers, s);
      assert false;
    }
  }

  // ---------------------------------------------------------------- the imperative runner

  /** Some schedule leads to this state. */
  ghost predicate IsPlayed(jobs: seq<Job>, workers: nat, head: set<string>, s: Pool) {
    exists schedule :: Play(jobs, workers, head, schedule) == Some(s)
  }

  lemma {:induction false} PlayedOn(jobs: seq<Job>, workers: nat, head: set<string>, s: Pool, e: Event)
    requires IsPlayed(jobs, workers, head, s) && |s.phases| == |jobs| && CanStep(jobs, workers, s, e)
    ensures IsPlayed(jobs, workers, head, After(jobs, workers, s, e))
  {
    var schedule :| Play(jobs, workers, head, schedule) == Some(s);
    assert (schedule + [e])[..|schedule|] == schedule;
    assert Play(jobs, workers, head, schedule + [e]) == Some(After(jobs, workers, s, e));
  }

  /** The variables `run_migrations_parallel` shares with its workers and its monitor. */
  class MigrationRun {
    const jobs: seq<Job>
    const workers: nat
    var phases: seq<Phase>
    var inFlight: map<nat, seq<string>>
    var previous: set<nat>
    var collected: set<nat>
    var allSuccess: bool
    var head: set<string>

    ghost function View(): Pool
      reads this
    {
      Pool(phases, inFlight, previous, collected, allSuccess, head)
    }

    constructor (jobs: seq<Job>, workers: nat, head: set<string>)
      ensures this.jobs == jobs && this.workers == workers && View() == Idle(jobs, head)
    {
      this.jobs, this.workers := jobs, workers;
      phases := seq(|jobs|, i => Waiting);
      inFlight, previous, collected, allSuccess := map[], {}, {}, true;
      this.head := head;
    }

    /** One step of the worker that runs batch `i`. */
    method Advance(i: nat, outcome: Outcome)
      requires |phases| == |jobs| && CanStep(jobs, workers, View(), Work(i, outcome))
      modifies this
      ensures View() == After(jobs, workers, old(View()), Work(i, outcome))
    {
      match phases[i] {
        case Waiting =>
          inFlight := inFlight[i := jobs[i].batch];
          phases := phases[i := First(0)];
        case First(done) =>
          match outcome {
            case Upgraded =>
              head := head + {jobs[i].targets.value[done]};
              phases := phases[i := First(done + 1)];
            case ChildExits => phases := phases[i := Returned(true, [], true)];
            case WorkerRaises => phases := phases[i := Crashed];
            case _ => phases := phases[i := Retry([])];
          }
        case Retry(log) =>
          match outcome {
            case Upgraded =>
              head := head + {jobs[i].targets.value[|log|]};
              phases := phases[i := Retry(log + [true])];
            case UpgradeFailed => phases := phases[i := Retry(log + [false])];
            case ChildExits => phases := phases[i := Returned(false, log, true)];
            case ChildDies => phases := phases[i := Returned(false, log, false)];
            case WorkerRaises => phases := phases[i := Crashed];
          }
        case Returned(success, log, exited) =>
          inFlight := inFlight - {i};
          phases := phases[i := Finished(success, log, exited)];
      }
    }

    /** The `as_completed` loop takes one resolved future. */
    method TakeResult(i: nat)
      requires |phases| == |jobs| && CanStep(jobs, workers, View(), Collect(i))
      modifies this
      ensures View() == After(jobs, workers, old(View()), Collect(i))
    {
      collected := collected + {i};
      if !phases[i].Finished? || !phases[i].success { allSuccess := false; }
    }

    /** One tick of the monitor. */
    method MonitorTick() returns (stuck: set<nat>)
      requires |phases| == |jobs|
      modifies this`previous
      ensures View() == After(jobs, workers, old(View()), Tick)
      ensures stuck == Reported(old(View()))
    {
      if inFlight == map[] {
        previous, stuck := {}, {};
        return;
      }
      var current := inFlight.Keys;
      stuck := current * previous;
      previous := current;
    }

    predicate CanMove(i: nat)
      requires |phases| == |jobs|
      reads this
    {
      i < |jobs| && (CanWork(jobs, workers, phases, i) || (IsOver(phases[i]) && i !in collected))
    }

    /** Batch `i` moves: its worker goes on, or its result is collected. */
    method Move(i: nat, ghost start: set<string>)
      requires Inv(jobs, workers, View()) && CanMove(i) && IsPlayed(jobs, workers, start, View())
      modifies this
      ensures Inv(jobs, workers, View()) && IsPlayed(jobs, workers, start, View())
      ensures old(head) <= head
      ensures TotalRank(jobs, phases, collected) < old(TotalRank(jobs, phases, collected))
    {
      if IsOver(phases[i]) {
        StepKeepsInv(jobs, workers, View(), Collect(i));
        StepDropsRank(jobs, workers, View(), Collect(i));
        PlayedOn(jobs, workers, start, View(), Collect(i));
        TakeResult(i);
      } else {
        var outcome: Outcome := *;
        if !Possible(jobs[i], Progress(phases[i]), outcome) { outcome := ChildDies; }
        StepKeepsInv(jobs, workers, View(), Work(i, outcome));
        StepDropsRank(jobs, workers, View(), Work(i, outcome));
        PlayedOn(jobs, workers, start, View(), Work(i, outcome));
        Advance(i, outcome);
      }
    }

    /** The monitor's clock may or may not go off before the next event. */
    method MaybeTick(ghost start: set<string>)
      requires Inv(jobs, workers, View()) && IsPlayed(jobs, workers, start, View())
      modifies this`previous
      ensures Inv(jobs, workers, View()) && IsPlayed(jobs, workers, start, View())
    {
      var ticks := *;
      if ticks {
        StepKeepsInv(jobs, workers, View(), Tick);
        PlayedOn(jobs, workers, start, View(), Tick);
        var _ := MonitorTick();
      }
    }

    ghost function Remaining(): nat
      reads this
    {
      if |jobs| == |phases| then TotalRank(jobs, phases, collected) else 0
    }

    method FindMovable() returns (found: bool, i: nat)
      requires Inv(jobs, workers, View()) && workers >= 1
      ensures found ==> CanMove(i)
      ensures !found ==> forall j: nat | j < |jobs| :: j in collected
    {
      found, i := false, 0;
      if exists j: nat :: j < |jobs| && CanMove(j) {
        i :| i < |jobs| && CanMove(i);
        found := true;
      } else {
        forall j: nat | j < |jobs|
          ensures !(CanWork(jobs, workers, View().phases, j) || (IsOver(View().phases[j]) && j !in View().collected))
        {
          assert !CanMove(j);
        }
        RestIsComplete(jobs, workers, View());
      }
    }

    /** Something moves, and then whatever can move next is found. */
    method Turn(i: nat, ghost start: set<string>) returns (found: bool, next: nat)
      requires workers >= 1 && Inv(jobs, workers, View()) && CanMove(i) && IsPlayed(jobs, workers, start, View())
      modifies this
      ensures Inv(jobs, workers, View()) && old(head) <= head && IsPlayed(jobs, workers, start, View())
      ensures Remaining() < old(Remaining())
      ensures found ==> CanMove(next)
      ensures !found ==> forall j: nat | j < |jobs| :: j in collected
    {
      MaybeTick(start);
      Move(i, start);
      found, next := FindMovable();
    }

    /** Runs until every result is in, whatever the threads, children and clock do. */
    method Drain(ghost start: set<string>)
      requires workers >= 1 && Inv(jobs, workers, View()) && IsPlayed(jobs, workers, start, View())
      modifies this
      ensures Inv(jobs, workers, View()) && IsPlayed(jobs, workers, start, View())
      ensures old(head) <= head
      ensures forall i: nat | i < |jobs| :: i in collected
    {
      var found, i := FindMovable();
      while found
        invariant Inv(jobs, workers, View()) && IsPlayed(jobs, workers, start, View())
        invariant old(head) <= head
        invariant found ==> CanMove(i)
        invariant !found ==> forall j: nat | j < |jobs| :: j in collected
        decreases Remaining()
      {
        found, i := Turn(i, start);
      }
    }
  }
}
