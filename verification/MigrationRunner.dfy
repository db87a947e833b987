/**
 Around the pool of workers: cutting the schemas into batches, what one child process does, what it
 makes of the arguments printed for it, and the runner as a whole.
 */
module MigrationRunner {
  import opened Counting
  import opened MigrationPool
  import opened Outcomes
  import opened SchemaArgs

  // ---------------------------------------------------------------- batches

  function Flatten(batches: seq<seq<string>>): seq<string> {
    if batches == [] then [] else Flatten(batches[..|batches| - 1]) + batches[|batches| - 1]
  }

  /** Every batch but the last is full, and the last is not empty. */
  ghost predicate WellCut(batches: seq<seq<string>>, size: nat) {
    forall k | 0 <= k < |batches| ::
      0 < |batches[k]| <= size && (k < |batches| - 1 ==> |batches[k]| == size)
  }

  method CutIntoBatches(schemas: seq<string>, size: nat) returns (batches: seq<seq<string>>)
    requires size >= 1
    ensures Flatten(batches) == schemas && WellCut(batches, size)
  {
    batches := [];
    var i := 0;
    while i < |schemas|
      invariant 0 <= i
      invariant Flatten(batches) == schemas[..if i < |schemas| then i else |schemas|]
      invariant forall k | 0 <= k < |batches| :: 0 < |batches[k]| <= size
      invariant forall k | 0 <= k < |batches| && (k < |batches| - 1 || i <= |schemas|) :: |batches[k]| == size
      decreases |schemas| - i
    {
      var end := if i + size < |schemas| then i + size else |schemas|;
      FlattenSnoc(batches, schemas[i..end]);
      assert schemas[..end] == schemas[..i] + schemas[i..end];
      batches := batches + [schemas[i..end]];
      i := i + size;
    }
    assert schemas[..|schemas|] == schemas;
  }

  lemma {:induction false} FlattenSnoc(batches: seq<seq<string>>, batch: seq<string>)
    ensures Flatten(batches + [batch]) == Flatten(batches) + batch
  {
    assert (batches + [batch])[..|batches|] == batches;
  }

  lemma {:induction false} FullBatches(batches: seq<seq<string>>, size: nat)
    requires forall k | 0 <= k < |batches| :: |batches[k]| == size
    ensures |Flatten(batches)| == |batches| * size
  {
    if batches != [] {
      var last := |batches| - 1;
      FullBatches(batches[..last], size);
      assert |batches| * size == last * size + size;
    }
  }

  /** The number of batches is the number of schemas divided by the batch size, rounded up. */
  lemma {:induction false} BatchCount(batches: seq<seq<string>>, size: nat)
    requires size >= 1 && WellCut(batches, size)
    ensures |batches| == Ceiling(|Flatten(batches)|, size)
  {
    if batches == [] {
      CeilingOfNone(size);
    } else {
      var last := |batches| - 1;
      FullBatches(batches[..last], size);
      CeilingOf(last, |batches[last]|, size);
    }
  }

  // ---------------------------------------------------------------- one child process

  /**
   How the loop over the schemas ends: `upgraded[i]` says whether the i-th schema's upgrade would
   succeed. Without `continueOnError` the first failure raises and the process exits non-zero.
   */
  ghost predicate LoopEnds(schemas: seq<string>, continueOnError: bool, upgraded: seq<bool>, exitsCleanly: bool,
                           tried: nat, migrated: set<string>)
    requires |upgraded| == |schemas|
  {
    && (exitsCleanly <==> continueOnError || forall i | 0 <= i < |schemas| :: upgraded[i])
    && tried <= |schemas| && (exitsCleanly ==> tried == |schemas|)
    && (!exitsCleanly ==> tried > 0 && !upgraded[tried - 1] && forall i | 0 <= i < tried - 1 :: upgraded[i])
    && migrated == Upgrades(schemas, upgraded, tried)
  }

  /** The schemas among the first `n` whose upgrade succeeds. */
  ghost function Upgrades(schemas: seq<string>, upgraded: seq<bool>, n: nat): set<string>
    requires n <= |upgraded| == |schemas|
  {
    set i | 0 <= i < n && upgraded[i] :: schemas[i]
  }

  /** The loop of `run_async_migrations`. */
  method MigrateEach(schemas: seq<string>, continueOnError: bool, upgraded: seq<bool>, head: set<string>)
    returns (exitsCleanly: bool, tried: nat, newHead: set<string>, ghost migrated: set<string>)
    requires |upgraded| == |schemas|
    ensures LoopEnds(schemas, continueOnError, upgraded, exitsCleanly, tried, migrated)
    ensures newHead == head + migrated
  {
    exitsCleanly, tried, newHead, migrated := true, 0, head, {};
    for i := 0 to |schemas|
      invariant exitsCleanly && tried == i
      invariant !continueOnError ==> forall j | 0 <= j < i :: upgraded[j]
      invariant migrated == Upgrades(schemas, upgraded, i) && newHead == head + migrated
    {
      tried := i + 1;
      UpgradesStep(schemas, upgraded, i);
      if upgraded[i] {
        newHead, migrated := newHead + {schemas[i]}, migrated + {schemas[i]};
      } else if !continueOnError {
        exitsCleanly := false;
        return;
      }
    }
  }

  lemma {:induction false} UpgradesStep(schemas: seq<string>, upgraded: seq<bool>, n: nat)
    requires n < |upgraded| == |schemas|
    ensures Upgrades(schemas, upgraded, n + 1)
         == Upgrades(schemas, upgraded, n) + if upgraded[n] then {schemas[n]} else {}
  {
  }

  // ---------------------------------------------------------------- the same child, as steps of the pool

  /** What the child does at its next step when it is not killed. */
  function NextOutcome(p: Phase, upgraded: seq<bool>): Outcome {
    var k := Progress(p);
    if k >= |upgraded| then ChildExits else if upgraded[k] then Upgraded else UpgradeFailed
  }

  predicate Runs(job: Job, p: Phase, upgraded: seq<bool>) {
    job.targets.Some? && |upgraded| == |job.targets.value| && (p.First? || p.Retry?) && Progress(p) <= |upgraded|
  }

  /** The phase in which the pool's steps leave a child, and the schemas they brought to head. */
  function ChildRun(job: Job, p: Phase, upgraded: seq<bool>): (Phase, set<string>)
    requires Runs(job, p, upgraded)
    decreases |upgraded| - Progress(p)
  {
    var (next, migrated) := WorkerStep(job, p, NextOutcome(p, upgraded));
    if Progress(p) < |upgraded| && (p.First? <==> next.First?) then
      var (end, more) := ChildRun(job, next, upgraded);
      (end, migrated + more)
    else (next, migrated)
  }

  lemma {:induction false} FirstChildRuns(job: Job, k: nat, upgraded: seq<bool>, exitsCleanly: bool, tried: nat,
                                          migrated: set<string>)
    requires Runs(job, First(k), upgraded)
                && LoopEnds(job.targets.value, false, upgraded, exitsCleanly, tried, migrated)
    requires forall i | 0 <= i < k :: upgraded[i]
    ensures ChildRun(job, First(k), upgraded).0 == if exitsCleanly then Returned(true, [], true) else Retry([])
    ensures Upgrades(job.targets.value, upgraded, k) + ChildRun(job, First(k), upgraded).1 == migrated
    decreases |upgraded| - k
  {
    var targets := job.targets.value;
    if k < |targets| {
      UpgradesStep(targets, upgraded, k);
      if upgraded[k] {
        FirstChildRuns(job, k + 1, upgraded, exitsCleanly, tried, migrated);
        assert ChildRun(job, First(k), upgraded).1 == {targets[k]} + ChildRun(job, First(k + 1), upgraded).1;
      } else {
        assert !exitsCleanly && tried == k + 1;
        assert migrated == Upgrades(targets, upgraded, k);
      }
    }
  }

  lemma {:induction false} RetryRuns(job: Job, k: nat, upgraded: seq<bool>)
    requires k <= |upgraded| && Runs(job, Retry(upgraded[..k]), upgraded)
    ensures ChildRun(job, Retry(upgraded[..k]), upgraded).0 == Returned(false, upgraded, true)
    ensures Upgrades(job.targets.value, upgraded, k) + ChildRun(job, Retry(upgraded[..k]), upgraded).1
         == Upgrades(job.targets.value, upgraded, |upgraded|)
    decreases |upgraded| - k
  {
    if k < |upgraded| {
      UpgradesStep(job.targets.value, upgraded, k);
      assert upgraded[..k + 1] == upgraded[..k] + [upgraded[k]];
      RetryRuns(job, k + 1, upgraded);
    } else {
      assert upgraded[..k] == upgraded;
    }
  }

  /**
   The pool's steps of a child that is not killed end as its loop does: the first child returns with
   success or hands over to the retry, the retry returns with one outcome per schema, and the same
   schemas are at head.
   */
  lemma {:induction false} ChildEndsAsItsLoop(job: Job, retry: bool, upgraded: seq<bool>, exitsCleanly: bool,
                                              tried: nat, migrated: set<string>)
    requires job.targets.Some? && |upgraded| == |job.targets.value|
    requires LoopEnds(job.targets.value, retry, upgraded, exitsCleanly, tried, migrated)
    ensures ChildRun(job, if retry then Retry([]) else First(0), upgraded)
         == (if retry then Returned(false, upgraded, true) else if exitsCleanly then Returned(true, [], true)
             else Retry([]), migrated)
  {
    var targets := job.targets.value;
    var run := ChildRun(job, if retry then Retry([]) else First(0), upgraded);
    assert Upgrades(targets, upgraded, 0) + run.1 == run.1;
    if retry {
      assert upgraded[..0] == [];
      RetryRuns(job, 0, upgraded);
    } else {
      FirstChildRuns(job, 0, upgraded, exitsCleanly, tried, migrated);
    }
  }

  // ---------------------------------------------------------------- the runner

  /** The job of a batch: what the child makes of the arguments printed for it. */
  function JobOf(batch: seq<string>, toInt: string -> Option<int>): Job {
    match ChildOptions(ChildArguments(batch, false), true, toInt)
    case Err(_) => Job(batch, None)
    case Ok(options) => Job(batch, options.schemas)
  }

  lemma {:induction false} GoodBatchIsItsTargets(batch: seq<string>, toInt: string -> Option<int>)
    requires batch != [] && forall name | name in batch :: GoodName(name)
    ensures JobOf(batch, toInt) == Job(batch, Some(batch))
  {
    BatchRoundTrip(batch, false, true, toInt);
  }

  method BuildJobs(batches: seq<seq<string>>, toInt: string -> Option<int>) returns (jobs: seq<Job>)
    ensures |jobs| == |batches| && forall k | 0 <= k < |batches| :: jobs[k] == JobOf(batches[k], toInt)
  {
    jobs := [];
    for k := 0 to |batches|
      invariant |jobs| == k && forall j | 0 <= j < k :: jobs[j] == JobOf(batches[j], toInt)
    {
      jobs := jobs + [JobOf(batches[k], toInt)];
    }
  }

  /** Once every result is in and all were good, the batches cover every schema. */
  lemma {:induction false} AllAtHead(batches: seq<seq<string>>, size: nat, jobs: seq<Job>, workers: nat, s: Pool,
                                     toInt: string -> Option<int>)
    requires WellCut(batches, size) && Inv(jobs, workers, s)
    requires |jobs| == |batches| && forall k | 0 <= k < |batches| :: jobs[k] == JobOf(batches[k], toInt)
    requires forall name | name in Flatten(batches) :: GoodName(name)
    requires s.allSuccess && forall i: nat | i < |jobs| :: i in s.collected
    ensures forall name | name in Flatten(batches) :: name in s.head
  {
    forall k | 0 <= k < |batches| ensures jobs[k] == Job(batches[k], Some(batches[k])) {
      BatchesWithin(batches, k);
      GoodBatchIsItsTargets(batches[k], toInt);
    }
    TargetsAtHead(batches, jobs, workers, s);
  }

  lemma {:induction false} TargetsAtHead(batches: seq<seq<string>>, jobs: seq<Job>, workers: nat, s: Pool)
    requires Inv(jobs, workers, s)
    requires |jobs| == |batches| && forall k | 0 <= k < |batches| :: jobs[k] == Job(batches[k], Some(batches[k]))
    requires s.allSuccess && forall i: nat | i < |jobs| :: i in s.collected
    ensures forall name | name in Flatten(batches) :: name in s.head
  {
    forall name | name in Flatten(batches)
      ensures name in s.head
    {
      var k := BatchOf(batches, name);
      assert k in s.collected && PhaseHolds(jobs[k], s.phases[k], s.head);
    }
  }

  /**
   `run_migrations_parallel`: every batch's result is collected, the answer is True exactly when
   every first child exited cleanly, and then every schema is at head.
   */
  method RunMigrationsParallel(schemas: seq<string>, maxWorkers: nat, batchSize: nat, toInt: string -> Option<int>,
                               head: set<string>)
    returns (success: bool, run: MigrationRun, ghost batches: seq<seq<string>>)
    requires maxWorkers >= 1 && batchSize >= 1
    ensures Flatten(batches) == schemas && WellCut(batches, batchSize)
    ensures |run.jobs| == |batches| && forall k | 0 <= k < |batches| :: run.jobs[k] == JobOf(batches[k], toInt)
    ensures Inv(run.jobs, maxWorkers, run.View()) && forall i: nat | i < |run.jobs| :: i in run.collected
    ensures success <==> forall i | 0 <= i < |run.jobs| :: Succeeded(run.phases[i])
    ensures IsPlayed(run.jobs, maxWorkers, head, run.View()) && head <= run.head
    ensures (forall name | name in schemas :: GoodName(name)) && success ==>
              forall name | name in schemas :: name in run.head
  {
    var cut := CutIntoBatches(schemas, batchSize);
    var jobs := BuildJobs(cut, toInt);
    batches := cut;
    run := new MigrationRun(jobs, maxWorkers, head);
    assert Play(jobs, maxWorkers, head, []) == Some(Idle(jobs, head));
    PlayKeepsInv(jobs, maxWorkers, head, []);
    run.Drain(head);
    success := run.allSuccess;
    if success && forall name | name in schemas :: GoodName(name) {
      AllAtHead(batches, batchSize, jobs, maxWorkers, run.View(), toInt);
    }
  }

  lemma {:induction false} BatchOf(batches: seq<seq<string>>, name: string) returns (k: nat)
    requires name in Flatten(batches)
    ensures k < |batches| && name in batches[k]
  {
    var last := |batches| - 1;
    if name in batches[last] { k := last; } else { k := BatchOf(batches[..last], name); }
  }

  lemma {:induction false} BatchesWithin(batches: seq<seq<string>>, k: nat)
    requires k < |batches|
    ensures forall name | name in batches[k] :: name in Flatten(batches)
  {
    var last := |batches| - 1;
    if k < last { BatchesWithin(batches[..last], k); }
  }
}
