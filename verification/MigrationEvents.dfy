/**
 What each worker of the migration pool does, told from the events of its batch alone: one child over the
 whole batch, and, when that one ends badly, a second one over the whole batch.
 */
module MigrationEvents {
  import opened MigrationPool
  import opened Outcomes

  // ---------------------------------------------------------------- the events of one batch

  predicate IsOf(e: Event, i: nat) { e.Work? && e.worker == i }

  /** What happened to the worker of batch `i`, in order; the first event starts it. */
  function Trace(schedule: seq<Event>, i: nat): seq<Outcome> {
    if schedule == [] then []
    else
      var last := schedule[|schedule| - 1];
      Trace(schedule[..|schedule| - 1], i) + if IsOf(last, i) then [last.outcome] else []
  }

  /** The outcomes of a child that upgraded `n` schemas one after another. */
  function Upgrades(n: nat): (r: seq<Outcome>)
    ensures |r| == n
  {
    seq(n, _ => Upgraded)
  }

  /** The outcomes of a child that went through schemas with these results. */
  function Tried(log: seq<bool>): (r: seq<Outcome>)
    ensures |r| == |log|
  {
    seq(|log|, k requires 0 <= k < |log| => if log[k] then Upgraded else UpgradeFailed)
  }

  /** A first child upgraded `n` schemas and then met `bad`; a second one began and went through `log`. */
  predicate Retried(events: seq<Outcome>, n: nat, bad: Outcome, log: seq<bool>) {
    (bad.UpgradeFailed? || bad.ChildDies?) && events == Upgrades(n) + [bad] + Tried(log)
  }

  ghost predicate SomeRetry(events: seq<Outcome>, log: seq<bool>) {
    exists n, bad :: Retried(events, n, bad, log)
  }

  /** The events after the start say how the batch was returned. */
  ghost predicate Returns(job: Job, events: seq<Outcome>, success: bool, log: seq<bool>, exited: bool) {
    && events != []
    && var before, end := events[..|events| - 1], events[|events| - 1];
       if success then
         end.ChildExits? && log == [] && exited && job.targets.Some? && before == Upgrades(|job.targets.value|)
       else
         && SomeRetry(before, log)
         && (if exited then end.ChildExits? && job.targets.Some? && |log| == |job.targets.value| else end.ChildDies?)
  }

  /** What the events so far say about where the worker stands. */
  ghost predicate Tells(job: Job, trace: seq<Outcome>, p: Phase) {
    if trace == [] then p.Waiting? else TellsAfter(job, trace[1..], p)
  }

  ghost predicate TellsAfter(job: Job, events: seq<Outcome>, p: Phase) {
    match p
    case Waiting => false
    case First(done) => events == Upgrades(done) && (job.targets.Some? ==> done <= |job.targets.value|)
    case Retry(log) => SomeRetry(events, log)
    case Returned(success, log, exited) => Returns(job, events, success, log, exited)
    case Finished(success, log, exited) => events != [] && Returns(job, events[..|events| - 1], success, log, exited)
    case Crashed =>
      && events != [] && events[|events| - 1].WorkerRaises?
      && var before := events[..|events| - 1];
         (exists n :: before == Upgrades(n)) || (exists log :: SomeRetry(before, log))
  }

  lemma {:induction false} UpgradesSnoc(n: nat)
    ensures Upgrades(n) + [Upgraded] == Upgrades(n + 1)
  {}

  lemma {:induction false} TriedSnoc(log: seq<bool>, ok: bool)
    ensures Tried(log) + [if ok then Upgraded else UpgradeFailed] == Tried(log + [ok])
  {}

  lemma {:induction false} RetryGoesOn(events: seq<Outcome>, log: seq<bool>, ok: bool)
    requires SomeRetry(events, log)
    ensures SomeRetry(events + [if ok then Upgraded else UpgradeFailed], log + [ok])
  {
    var n, bad :| Retried(events, n, bad, log);
    var e := if ok then Upgraded else UpgradeFailed;
    TriedSnoc(log, ok);
    assert events + [e] == Upgrades(n) + [bad] + (Tried(log) + [e]);
    assert Retried(events + [e], n, bad, log + [ok]);
  }

  lemma {:induction false} RetryBegins(n: nat, bad: Outcome)
    requires bad.UpgradeFailed? || bad.ChildDies?
    ensures SomeRetry(Upgrades(n) + [bad], [])
  {
    assert Tried([]) == [];
    assert Retried(Upgrades(n) + [bad], n, bad, []);
  }

  lemma {:induction false} FirstTells(job: Job, events: seq<Outcome>, done: nat, e: Outcome)
    requires events == Upgrades(done) && Possible(job, done, e)
    requires job.targets.Some? ==> done <= |job.targets.value|
    ensures TellsAfter(job, events + [e], WorkerStep(job, First(done), e).0)
  {
    assert (events + [e])[..|events|] == events;
    UpgradesSnoc(done);
    if e.UpgradeFailed? || e.ChildDies? { RetryBegins(done, e); }
  }

  lemma {:induction false} RetryTells(job: Job, events: seq<Outcome>, log: seq<bool>, e: Outcome)
    requires SomeRetry(events, log) && Possible(job, |log|, e)
    ensures TellsAfter(job, events + [e], WorkerStep(job, Retry(log), e).0)
  {
    assert (events + [e])[..|events|] == events;
    RetryGoesOn(events, log, true);
    RetryGoesOn(events, log, false);
    assert e.Upgraded? ==> e == Upgraded;
    assert e.UpgradeFailed? ==> e == UpgradeFailed;
  }

  /** One step of the worker, from where its events say it stands. */
  lemma {:induction false} StepTells(job: Job, trace: seq<Outcome>, p: Phase, e: Outcome)
    requires Tells(job, trace, p) && (IsActive(p) || p.Waiting?)
    requires p.First? || p.Retry? ==> Possible(job, Progress(p), e)
    ensures Tells(job, trace + [e], WorkerStep(job, p, e).0)
  {
    var next := WorkerStep(job, p, e).0;
    if trace == [] {
      assert (trace + [e])[1..] == [] == Upgrades(0);
      assert next == First(0) && TellsAfter(job, [], next);
    } else {
      var events := trace[1..];
      if p.First? {
        FirstTells(job, events, p.done, e);
      } else if p.Retry? {
        RetryTells(job, events, p.log, e);
      } else {
        assert (events + [e])[..|events|] == events;
      }
      assert TellsAfter(job, events + [e], next);
      assert (trace + [e])[1..] == events + [e];
    }
  }

  lemma {:induction false} PhaseAfter(jobs: seq<Job>, workers: nat, s: Pool, e: Event, i: nat)
    requires |s.phases| == |jobs| && CanStep(jobs, workers, s, e) && i < |jobs|
    ensures !IsOf(e, i) ==> After(jobs, workers, s, e).phases[i] == s.phases[i]
    ensures IsOf(e, i) ==>
              && (IsActive(s.phases[i]) || s.phases[i].Waiting?)
              && (s.phases[i].First? || s.phases[i].Retry? ==> Possible(jobs[i], Progress(s.phases[i]), e.outcome))
              && After(jobs, workers, s, e).phases[i] == WorkerStep(jobs[i], s.phases[i], e.outcome).0
  {}

  /** Where a worker stands is what the events of its batch say, for every schedule. */
  lemma {:induction false} EventsTell(jobs: seq<Job>, workers: nat, head: set<string>, schedule: seq<Event>, i: nat)
    requires Play(jobs, workers, head, schedule).Some? && i < |jobs|
    ensures Tells(jobs[i], Trace(schedule, i), Play(jobs, workers, head, schedule).value.phases[i])
  {
    if schedule != [] {
      var last := |schedule| - 1;
      var before := schedule[..last];
      EventsTell(jobs, workers, head, before, i);
      var s, e := Play(jobs, workers, head, before).value, schedule[last];
      PhaseAfter(jobs, workers, s, e, i);
      if IsOf(e, i) {
        StepTells(jobs[i], Trace(before, i), s.phases[i], e.outcome);
        assert Trace(schedule, i) == Trace(before, i) + [e.outcome];
      } else {
        assert Trace(schedule, i) == Trace(before, i) + [] == Trace(before, i);
      }
    }
  }

  // ---------------------------------------------------------------- what that means for a batch

  /**
   A batch that failed had exactly two children: the first upgraded some schemas and ended badly, the second
   tried schemas one by one and ended by itself, with all of them tried, or was killed.
   */
  lemma {:induction false} FailedBatchRanTwice(jobs: seq<Job>, workers: nat, head: set<string>, schedule: seq<Event>,
                                               i: nat)
    returns (n: nat, bad: Outcome, last: Outcome)
    requires Play(jobs, workers, head, schedule).Some? && i < |jobs|
    requires var p := Play(jobs, workers, head, schedule).value.phases[i]; p.Finished? && !p.success
    ensures var p := Play(jobs, workers, head, schedule).value.phases[i];
            var trace := Trace(schedule, i);
            && |trace| >= 2 && (bad.UpgradeFailed? || bad.ChildDies?)
            && trace[1..|trace| - 1] == Upgrades(n) + [bad] + Tried(p.log) + [last]
            && (if p.exited then last.ChildExits? && Covers(jobs[i], p.log) else last.ChildDies?)
  {
    var p, trace := Play(jobs, workers, head, schedule).value.phases[i], Trace(schedule, i);
    EventsTell(jobs, workers, head, schedule, i);
    var events := trace[1..];
    var run := events[..|events| - 1];
    var before := run[..|run| - 1];
    n, bad :| Retried(before, n, bad, p.log);
    last := run[|run| - 1];
    assert run == before + [last] && trace[1..|trace| - 1] == run;
  }

  /** The child went through all schemas of the batch. */
  predicate Covers(job: Job, log: seq<bool>) { job.targets.Some? && |log| == |job.targets.value| }

  /** A batch that succeeded had one child, which upgraded every schema and ended by itself. */
  lemma {:induction false} GoodBatchRanOnce(jobs: seq<Job>, workers: nat, head: set<string>, schedule: seq<Event>,
                                            i: nat)
    requires Play(jobs, workers, head, schedule).Some? && i < |jobs|
    requires Succeeded(Play(jobs, workers, head, schedule).value.phases[i])
    ensures var trace := Trace(schedule, i);
            && |trace| >= 2 && jobs[i].targets.Some?
            && trace[1..|trace| - 1] == Upgrades(|jobs[i].targets.value|) + [ChildExits]
  {
    var trace := Trace(schedule, i);
    EventsTell(jobs, workers, head, schedule, i);
    var events := trace[1..];
    var run := events[..|events| - 1];
    assert run == run[..|run| - 1] + [run[|run| - 1]] && trace[1..|trace| - 1] == run;
  }

  /**
   Whatever ended the first child badly, short of an exception in the worker, a second child begins at once
   with nothing tried yet.
   */
  lemma {:induction false} SecondChildBegins(jobs: seq<Job>, workers: nat, head: set<string>, schedule: seq<Event>,
                                             i: nat, k: nat)
    requires FailsAt(jobs, workers, head, schedule, i, k) && !schedule[k].outcome.WorkerRaises?
    requires Play(jobs, workers, head, schedule[..k + 1]).Some?
    ensures Play(jobs, workers, head, schedule[..k + 1]).value.phases[i] == Retry([])
  {
    assert schedule[..k + 1][..k] == schedule[..k];
  }

  /** When the second child was not killed, every schema is tried and those it upgraded are at head. */
  lemma {:induction false} SecondChildMigrates(jobs: seq<Job>, workers: nat, head: set<string>, schedule: seq<Event>,
                                               i: nat)
    requires Play(jobs, workers, head, schedule).Some? && i < |jobs|
    requires var p := Play(jobs, workers, head, schedule).value.phases[i]; p.Finished? && !p.success && p.exited
    ensures var s := Play(jobs, workers, head, schedule).value;
            && Covers(jobs[i], s.phases[i].log)
            && forall j | 0 <= j < |s.phases[i].log| && s.phases[i].log[j] :: jobs[i].targets.value[j] in s.head
  {
    var n, bad, last := FailedBatchRanTwice(jobs, workers, head, schedule, i);
    PlayKeepsInv(jobs, workers, head, schedule);
  }

  /** An event brings a schema to head exactly when it is the upgrade of the schema the child had come to. */
  lemma {:induction false} BringsIff(jobs: seq<Job>, workers: nat, head: set<string>, schedule: seq<Event>, k: nat,
                                     t: string)
    requires Play(jobs, workers, head, schedule).Some? && k < |schedule|
    ensures BringsAt(jobs, workers, head, schedule, k, t) <==>
              && schedule[k].Work? && schedule[k].outcome.Upgraded?
              && var s := At(jobs, workers, head, schedule, k);
                 var i := schedule[k].worker;
                 && i < |jobs| && (s.phases[i].First? || s.phases[i].Retry?) && jobs[i].targets.Some?
                 && Progress(s.phases[i]) < |jobs[i].targets.value|
                 && t == jobs[i].targets.value[Progress(s.phases[i])]
  {
    PrefixPlays(jobs, workers, head, schedule, k);
    AtNext(jobs, workers, head, schedule, k);
    var s := At(jobs, workers, head, schedule, k);
    assert s == Play(jobs, workers, head, schedule[..k]).value;
    assert BringsAt(jobs, workers, head, schedule, k, t) <==>
             schedule[k].Work? && Brings(jobs, workers, s, schedule[k], t);
  }
}
