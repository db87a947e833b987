/**
 What holds over every run of the concurrent question runner, and the runner itself.
 */
module QuestionRunner {
  import opened Outcomes
  import opened QuestionTasks

  // ---------------------------------------------------------------- the invariant

  /** Steps a coroutine can still make, counted generously. */
  function Rank(t: Task): nat {
    var later: nat := if t.attempt < MAX_QUESTION_ATTEMPTS then MAX_QUESTION_ATTEMPTS - t.attempt else 0;
    4 * later +
    match t.pc
    case Queued => 6
    case InFlight => 5
    case TimedOut => 4
    case Sleeping => 3
    case Exhausted => 1
    case Raised(_) => 1
    case Answered(_) => 2
    case Written(_) => 1
    case _ => 0
  }

  function TotalRank(ids: seq<string>, tasks: seq<Task>): nat
    requires |ids| == |tasks|
  {
    Sum(ids, tasks, (q, t) => Rank(t))
  }

  function TotalTimeouts(ids: seq<string>, tasks: seq<Task>): nat
    requires |ids| == |tasks|
  {
    Sum(ids, tasks, (q, t) => CountedTimeouts(t))
  }

  ghost predicate TaskOk(t: Task) {
    && 1 <= t.attempt <= MAX_QUESTION_ATTEMPTS
    && (t.pc.Exhausted? || t.pc.GaveUp? ==> t.attempt == MAX_QUESTION_ATTEMPTS)
  }

  /** Each line belongs to a coroutine past its write, each failure to one that failed. */
  ghost predicate Logged(ids: seq<string>, s: State)
    requires |s.tasks| == |ids|
  {
    && |s.lines| == Count(ids, s.tasks, HasLine)
    && |s.failed| == Count(ids, s.tasks, HasFailed)
    && (forall id :: multiset(LineIds(s.lines))[id] == CountOf(ids, s.tasks, HasLine, id))
    && (forall id :: multiset(FailedIds(s.failed))[id] == CountOf(ids, s.tasks, HasFailed, id))
  }

  /** What every step keeps. */
  ghost predicate Inv(ids: seq<string>, parallelism: nat, s: State) {
    && |s.tasks| == |ids|
    && (forall i | 0 <= i < |s.tasks| :: TaskOk(s.tasks[i]))
    && s.permits + Count(ids, s.tasks, IsInFlight) == parallelism
    && s.completed == Count(ids, s.tasks, HasSucceeded) + Count(ids, s.tasks, HasFailed)
    && s.successful == Count(ids, s.tasks, HasSucceeded)
    && s.stuck == TotalTimeouts(ids, s.tasks)
    && Logged(ids, s)
  }

  lemma {:induction false} StartKeepsInv(ids: seq<string>, parallelism: nat)
    ensures Inv(ids, parallelism, Start(ids, parallelism))
    ensures TotalRank(ids, Start(ids, parallelism).tasks) == 14 * |ids|
  {
    var s := Start(ids, parallelism);
    SumConstant(ids, s.tasks, (q, t) => CountedTimeouts(t), 0);
    SumConstant(ids, s.tasks, (q, t) => Rank(t), 14);
    CountNone(ids, s.tasks, IsInFlight, "");
    CountNone(ids, s.tasks, HasSucceeded, "");
    forall id
      ensures Count(ids, s.tasks, HasLine) == CountOf(ids, s.tasks, HasLine, id) == 0
      ensures Count(ids, s.tasks, HasFailed) == CountOf(ids, s.tasks, HasFailed, id) == 0
    {
      CountNone(ids, s.tasks, HasLine, id);
      CountNone(ids, s.tasks, HasFailed, id);
    }
    assert Count(ids, s.tasks, HasFailed) == CountOf(ids, s.tasks, HasFailed, "") == 0;
  }

  lemma {:induction false} StepTask(ids: seq<string>, s: State, c: Choice)
    requires |ids| == |s.tasks| && Enabled(s, c.task) && TaskOk(s.tasks[c.task])
    ensures After(ids, s, c).tasks == s.tasks[c.task := After(ids, s, c).tasks[c.task]]
    ensures TaskOk(After(ids, s, c).tasks[c.task])
    ensures Rank(After(ids, s, c).tasks[c.task]) < Rank(s.tasks[c.task])
  {}

  lemma {:induction false} StepCounters(ids: seq<string>, parallelism: nat, s: State, c: Choice)
    requires Inv(ids, parallelism, s) && Enabled(s, c.task)
    ensures After(ids, s, c).permits + Count(ids, After(ids, s, c).tasks, IsInFlight) == parallelism
    ensures After(ids, s, c).successful == Count(ids, After(ids, s, c).tasks, HasSucceeded)
    ensures After(ids, s, c).completed
         == Count(ids, After(ids, s, c).tasks, HasSucceeded) + Count(ids, After(ids, s, c).tasks, HasFailed)
    ensures |After(ids, s, c).lines| == Count(ids, After(ids, s, c).tasks, HasLine)
    ensures |After(ids, s, c).failed| == Count(ids, After(ids, s, c).tasks, HasFailed)
  {
    var t' := After(ids, s, c).tasks[c.task];
    StepTask(ids, s, c);
    CountUpdate(ids, s.tasks, IsInFlight, c.task, t');
    CountUpdate(ids, s.tasks, HasSucceeded, c.task, t');
    CountUpdate(ids, s.tasks, HasFailed, c.task, t');
    CountUpdate(ids, s.tasks, HasLine, c.task, t');
  }

  lemma {:induction false} LineIdsSnoc(lines: seq<Record>, r: Record, id: string)
    ensures multiset(LineIds(lines + [r]))[id] == multiset(LineIds(lines))[id] + Bit(r.questionId == id)
  {
    assert LineIds(lines + [r]) == LineIds(lines) + [r.questionId];
  }

  lemma {:induction false} FailedIdsSnoc(failed: seq<FailedRecord>, r: FailedRecord, id: string)
    ensures multiset(FailedIds(failed + [r]))[id] == multiset(FailedIds(failed))[id] + Bit(r.questionId == id)
  {
    assert FailedIds(failed + [r]) == FailedIds(failed) + [r.questionId];
  }

  lemma {:induction false} StepLinesLogged(ids: seq<string>, parallelism: nat, s: State, c: Choice, id: string)
    requires Inv(ids, parallelism, s) && Enabled(s, c.task)
    ensures multiset(LineIds(After(ids, s, c).lines))[id] == CountOf(ids, After(ids, s, c).tasks, HasLine, id)
  {
    var s' := After(ids, s, c);
    StepTask(ids, s, c);
    CountOfUpdate(ids, s.tasks, HasLine, id, c.task, s'.tasks[c.task]);
    if s.tasks[c.task].pc.Answered? {
      LineIdsSnoc(s.lines, Record(ids[c.task], s.tasks[c.task].pc.text), id);
    }
  }

  lemma {:induction false} StepFailedLogged(ids: seq<string>, parallelism: nat, s: State, c: Choice, id: string)
    requires Inv(ids, parallelism, s) && Enabled(s, c.task)
    ensures multiset(FailedIds(After(ids, s, c).failed))[id] == CountOf(ids, After(ids, s, c).tasks, HasFailed, id)
  {
    var s' := After(ids, s, c);
    StepTask(ids, s, c);
    CountOfUpdate(ids, s.tasks, HasFailed, id, c.task, s'.tasks[c.task]);
    if s.tasks[c.task].pc.Raised? || s.tasks[c.task].pc.Exhausted? {
      FailedIdsSnoc(s.failed, s'.failed[|s.failed|], id);
    }
  }

  /** Every atomic step keeps the invariant and brings the run closer to its end. */
  lemma {:induction false} StepKeepsInv(ids: seq<string>, parallelism: nat, s: State, c: Choice)
    requires Inv(ids, parallelism, s) && Enabled(s, c.task)
    ensures Inv(ids, parallelism, After(ids, s, c))
    ensures TotalRank(ids, After(ids, s, c).tasks) < TotalRank(ids, s.tasks)
  {
    var s' := After(ids, s, c);
    StepTask(ids, s, c);
    StepCounters(ids, parallelism, s, c);
    forall id
      ensures multiset(LineIds(s'.lines))[id] == CountOf(ids, s'.tasks, HasLine, id)
      ensures multiset(FailedIds(s'.failed))[id] == CountOf(ids, s'.tasks, HasFailed, id)
    {
      StepLinesLogged(ids, parallelism, s, c, id);
      StepFailedLogged(ids, parallelism, s, c, id);
    }
    SumUpdate(ids, s.tasks, (q, t) => Rank(t), c.task, s'.tasks[c.task]);
    SumUpdate(ids, s.tasks, (q, t) => CountedTimeouts(t), c.task, s'.tasks[c.task]);
  }

  // ---------------------------------------------------------------- whole runs

  /** Every state a run can be in satisfies the invariant, after at most 14 steps per question. */
  lemma {:induction false} PlayKeepsInv(ids: seq<string>, parallelism: nat, schedule: seq<Choice>)
    ensures var end := Play(ids, parallelism, schedule);
            end.Some? ==>
              && Inv(ids, parallelism, end.value)
              && |schedule| + TotalRank(ids, end.value.tasks) <= 14 * |ids|
  {
    if schedule == [] {
      StartKeepsInv(ids, parallelism);
    } else if Play(ids, parallelism, schedule).Some? {
      var last := |schedule| - 1;
      PlayKeepsInv(ids, parallelism, schedule[..last]);
      StepKeepsInv(ids, parallelism, Play(ids, parallelism, schedule[..last]).value, schedule[last]);
    }
  }

  /** What a reader of the shared state may rely on at any moment of any run. */
  ghost predicate Safe(ids: seq<string>, parallelism: nat, s: State) {
    && |s.tasks| == |ids|
    && Count(ids, s.tasks, IsInFlight) <= parallelism
    && s.completed == s.successful + |s.failed| <= |ids|
    && s.successful <= |s.lines|
    && multiset(LineIds(s.lines)) + multiset(FailedIds(s.failed)) <= multiset(ids)
    && (forall i | 0 <= i < |ids| :: Requests(s.tasks[i]) <= MAX_QUESTION_ATTEMPTS)
    && s.stuck <= MAX_QUESTION_ATTEMPTS * |ids|
  }

  lemma {:induction false} InvIsSafe(ids: seq<string>, parallelism: nat, s: State)
    requires Inv(ids, parallelism, s)
    ensures Safe(ids, parallelism, s)
  {
    CountMonotone(ids, s.tasks, HasSucceeded, HasLine);
    SumBound(ids, s.tasks, (q, t) => CountedTimeouts(t), MAX_QUESTION_ATTEMPTS);
    CountSplit(ids, s.tasks, HasSucceeded, HasFailed, "");
    forall id
      ensures multiset(LineIds(s.lines))[id] + multiset(FailedIds(s.failed))[id] <= multiset(ids)[id]
    {
      CountSplit(ids, s.tasks, HasLine, HasFailed, id);
    }
  }

  /** Until every question is finished some coroutine can move, so no run gets stuck. */
  lemma {:induction false} NeverStuck(ids: seq<string>, parallelism: nat, s: State)
    requires Inv(ids, parallelism, s) && parallelism >= 1
    requires exists i :: 0 <= i < |ids| && !IsFinished(s.tasks[i])
    ensures exists i: nat :: Enabled(s, i)
  {
    var i :| 0 <= i < |ids| && !IsFinished(s.tasks[i]);
    if !Enabled(s, i) {
      if j :| 0 <= j < |ids| && IsInFlight(s.tasks[j]) {
        assert Enabled(s, j);
      } else {
        CountNone(ids, s.tasks, IsInFlight, "");
      }
    }
  }

  /** Every question ends with exactly one line or exactly one failure, and the counters say which. */
  ghost predicate Settled(ids: seq<string>, s: State) {
    && |s.tasks| == |ids|
    && s.completed == |ids|
    && s.successful == |s.lines|
    && multiset(LineIds(s.lines)) + multiset(FailedIds(s.failed)) == multiset(ids)
    && (forall i | 0 <= i < |ids| :: 1 <= Requests(s.tasks[i]) <= MAX_QUESTION_ATTEMPTS)
    && (forall i | 0 <= i < |ids| :: s.tasks[i].pc.GaveUp? ==> Requests(s.tasks[i]) == MAX_QUESTION_ATTEMPTS)
    && (forall i | 0 <= i < |ids| :: s.tasks[i].pc.Succeeded? ==> ids[i] in LineIds(s.lines))
    && (forall i | 0 <= i < |ids| :: HasFailed(s.tasks[i]) ==> ids[i] in FailedIds(s.failed))
  }

  lemma {:induction false} FinishedCounts(ids: seq<string>, parallelism: nat, s: State)
    requires Inv(ids, parallelism, s)
    requires forall i | 0 <= i < |ids| :: IsFinished(s.tasks[i])
    ensures s.completed == |ids| && s.successful == |s.lines|
  {
    CountMonotone(ids, s.tasks, HasSucceeded, HasLine);
    CountSplit(ids, s.tasks, HasSucceeded, HasFailed, "");
  }

  lemma {:induction false} FinishedIds(ids: seq<string>, parallelism: nat, s: State)
    requires Inv(ids, parallelism, s)
    requires forall i | 0 <= i < |ids| :: IsFinished(s.tasks[i])
    ensures multiset(LineIds(s.lines)) + multiset(FailedIds(s.failed)) == multiset(ids)
  {
    forall id
      ensures multiset(LineIds(s.lines))[id] + multiset(FailedIds(s.failed))[id] == multiset(ids)[id]
    {
      CountSplit(ids, s.tasks, HasLine, HasFailed, id);
    }
  }

  lemma {:induction false} OutcomeIsLogged(ids: seq<string>, parallelism: nat, s: State, i: nat)
    requires Inv(ids, parallelism, s) && i < |ids|
    ensures s.tasks[i].pc.Succeeded? ==> ids[i] in LineIds(s.lines)
    ensures HasFailed(s.tasks[i]) ==> ids[i] in FailedIds(s.failed)
  {
    CountOfMember(ids, s.tasks, HasLine, ids[i]);
    CountOfMember(ids, s.tasks, HasFailed, ids[i]);
    assert s.tasks[i].pc.Succeeded? ==> ids[i] in multiset(LineIds(s.lines));
    assert HasFailed(s.tasks[i]) ==> ids[i] in multiset(FailedIds(s.failed));
  }

  lemma {:induction false} FinishedIsSettled(ids: seq<string>, parallelism: nat, s: State)
    requires Inv(ids, parallelism, s)
    requires forall i | 0 <= i < |ids| :: IsFinished(s.tasks[i])
    ensures Settled(ids, s)
  {
    FinishedCounts(ids, parallelism, s);
    FinishedIds(ids, parallelism, s);
    forall i | 0 <= i < |ids|
      ensures s.tasks[i].pc.Succeeded? ==> ids[i] in LineIds(s.lines)
      ensures HasFailed(s.tasks[i]) ==> ids[i] in FailedIds(s.failed)
    {
      OutcomeIsLogged(ids, parallelism, s, i);
    }
  }

  /** A run that no coroutine can continue has settled every question. */
  lemma {:induction false} RestIsSettled(ids: seq<string>, parallelism: nat, s: State)
    requires Inv(ids, parallelism, s) && parallelism >= 1
    requires forall i: nat :: !Enabled(s, i)
    ensures Settled(ids, s)
  {
    if i :| 0 <= i < |ids| && !IsFinished(s.tasks[i]) {
      NeverStuck(ids, parallelism, s);
      assert false;
    }
    FinishedIsSettled(ids, parallelism, s);
  }

  /**
   Safety and progress of every interleaving: the shared state is sound at each moment, the run
   has a bounded number of steps, and it can only come to rest with every question settled.
   */
  lemma {:induction false} EveryInterleaving(ids: seq<string>, parallelism: nat, schedule: seq<Choice>)
    ensures var end := Play(ids, parallelism, schedule);
            parallelism >= 1 && end.Some? ==>
              && Safe(ids, parallelism, end.value)
              && |schedule| <= 14 * |ids|
              && ((exists i: nat :: Enabled(end.value, i)) || Settled(ids, end.value))
  {
    PlayKeepsInv(ids, parallelism, schedule);
    var end := Play(ids, parallelism, schedule);
    if parallelism >= 1 && end.Some? {
      InvIsSafe(ids, parallelism, end.value);
      if !exists i: nat :: Enabled(end.value, i) {
        RestIsSettled(ids, parallelism, end.value);
      }
    }
  }

  /** Some schedule leads to this state, and no coroutine can go on from it. */
  ghost predicate IsRun(ids: seq<string>, parallelism: nat, s: State) {
    && (exists schedule :: Play(ids, parallelism, schedule) == Some(s))
    && forall i: nat :: !Enabled(s, i)
  }

  // ---------------------------------------------------------------- the imperative runner

  /** The variables `process_question` shares through its closure. */
  class AnswerRun {
    const ids: seq<string>
    var permits: nat
    var tasks: seq<Task>
    var lines: seq<Record>
    var completed: nat
    var successful: nat
    var stuckCount: nat
    var failed: seq<FailedRecord>

    ghost function View(): State
      reads this
    {
      State(permits, tasks, lines, completed, successful, stuckCount, failed)
    }

    predicate CanRun(i: nat)
      reads this
    {
      && i < |tasks|
      && !IsFinished(tasks[i])
      && (tasks[i].pc.Queued? ==> permits > 0)
    }

    constructor (ids: seq<string>, parallelism: nat)
      ensures this.ids == ids && View() == Start(ids, parallelism)
    {
      this.ids := ids;
      permits := parallelism;
      tasks := seq(|ids|, i => Task(1, Queued));
      lines, failed := [], [];
      completed, successful, stuckCount := 0, 0, 0;
    }

    method MoveTo(i: nat, pc: Pc)
      requires i < |tasks|
      modifies this`tasks
      ensures tasks == old(tasks)[i := Task(old(tasks[i].attempt), pc)]
    {
      tasks := tasks[i := Task(tasks[i].attempt, pc)];
    }

    /** Runs coroutine `i` up to its next suspension point. */
    method Resume(i: nat, reply: Reply)
      requires |ids| == |tasks| && CanRun(i)
      modifies this
      ensures View() == After(ids, old(View()), Choice(i, reply))
    {
      match tasks[i].pc {
        case Queued =>
          permits := permits - 1;
          MoveTo(i, InFlight);
        case InFlight =>
          permits := permits + 1;
          match reply {
            case Answer(text) => MoveTo(i, Answered(text));
            case Timeout => MoveTo(i, TimedOut);
            case Failure(error) => MoveTo(i, Raised(error));
          }
        case TimedOut =>
          stuckCount := stuckCount + 1;
          MoveTo(i, Sleeping);
        case Sleeping =>
          if tasks[i].attempt < MAX_QUESTION_ATTEMPTS {
            tasks := tasks[i := Task(tasks[i].attempt + 1, Queued)];
          } else {
            MoveTo(i, Exhausted);
          }
        case Raised(error) =>
          completed := completed + 1;
          failed := failed + [FailedRecord(ids[i], error)];
          MoveTo(i, Failed(error));
        case Exhausted =>
          completed := completed + 1;
          failed := failed + [FailedRecord(ids[i], EXHAUSTED_ERROR)];
          MoveTo(i, GaveUp);
        case Answered(text) =>
          lines := lines + [Record(ids[i], text)];
          MoveTo(i, Written(text));
        case Written(text) =>
          completed := completed + 1;
          successful := successful + 1;
          MoveTo(i, Succeeded(text));
        case _ =>
      }
    }

    /** Awaits all coroutines: whatever the scheduler and the server do, everything settles. */
    method Gather(ghost parallelism: nat)
      requires parallelism >= 1 && View() == Start(ids, parallelism)
      modifies this
      ensures Settled(ids, View()) && Safe(ids, parallelism, View())
      ensures IsRun(ids, parallelism, View())
    {
      StartKeepsInv(ids, parallelism);
      ghost var schedule: seq<Choice> := [];
      while exists i :: 0 <= i < |tasks| && CanRun(i)
        invariant Inv(ids, parallelism, View())
        invariant Play(ids, parallelism, schedule) == Some(View())
        decreases if |ids| == |tasks| then TotalRank(ids, tasks) else 0
      {
        var i :| 0 <= i < |tasks| && CanRun(i);
        var reply: Reply := *;
        StepKeepsInv(ids, parallelism, View(), Choice(i, reply));
        PlaySnoc(ids, parallelism, schedule, Choice(i, reply));
        schedule := schedule + [Choice(i, reply)];
        Resume(i, reply);
      }
      assert forall i: nat :: Enabled(View(), i) ==> CanRun(i);
      RestIsSettled(ids, parallelism, View());
      InvIsSafe(ids, parallelism, View());
    }
  }

  /** The entry point refuses a parallelism below one before anything runs. */
  method GenerateAnswers(ids: seq<string>, parallelism: int) returns (r: Result<AnswerRun>)
    ensures parallelism < 1 <==> r.Err?
    ensures r.Ok? ==> fresh(r.value) && r.value.ids == ids
    ensures r.Ok? ==> Settled(ids, r.value.View()) && Safe(ids, parallelism, r.value.View())
    ensures r.Ok? ==> IsRun(ids, parallelism, r.value.View())
  {
    if parallelism < 1 {
      return Err("`--parallelism` must be at least 1.");
    }
    var run := new AnswerRun(ids, parallelism);
    run.Gather(parallelism);
    r := Ok(run);
  }
}
