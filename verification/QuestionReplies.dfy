/**
 How each coroutine of the question runner ends, told from the replies its requests got: a timeout is
 followed by another request up to the third, anything else decides.
 */
module QuestionReplies {
  import opened Outcomes
  import opened QuestionRunner
  import opened QuestionTasks

  // ---------------------------------------------------------------- the replies of one coroutine

  /** The schedule's last choice is the reply to a request of coroutine `i`. */
  predicate RepliesLast(ids: seq<string>, parallelism: nat, schedule: seq<Choice>, i: nat)
    requires schedule != []
  {
    var before := Play(ids, parallelism, schedule[..|schedule| - 1]);
    && schedule[|schedule| - 1].task == i
    && before.Some? && i < |ids| && before.value.tasks[i].pc.InFlight?
  }

  /** The replies that coroutine `i` got while a request of its was in flight, in order. */
  function Replies(ids: seq<string>, parallelism: nat, schedule: seq<Choice>, i: nat): seq<Reply> {
    if schedule == [] then []
    else
      var last := |schedule| - 1;
      Replies(ids, parallelism, schedule[..last], i)
      + if RepliesLast(ids, parallelism, schedule, i) then [schedule[last].reply] else []
  }

  /** How many requests of all coroutines have timed out. */
  function TimedOutRequests(ids: seq<string>, parallelism: nat, schedule: seq<Choice>): nat {
    if schedule == [] then 0
    else
      var last := |schedule| - 1;
      TimedOutRequests(ids, parallelism, schedule[..last])
      + Bit(RepliesLast(ids, parallelism, schedule, schedule[last].task) && schedule[last].reply.Timeout?)
  }

  predicate AllTimeouts(rs: seq<Reply>) { forall k | 0 <= k < |rs| :: rs[k].Timeout? }

  /** The last reply is this one, and only timeouts came before it. */
  predicate TimeoutsThen(rs: seq<Reply>, r: Reply) {
    rs != [] && rs[|rs| - 1] == r && AllTimeouts(rs[..|rs| - 1])
  }

  // ---------------------------------------------------------------- where it stands

  /** What the replies so far say about where a coroutine stands. */
  predicate Explains(rs: seq<Reply>, t: Task) {
    match t.pc
    case Queued => AllTimeouts(rs) && |rs| == t.attempt - 1
    case InFlight => AllTimeouts(rs) && |rs| == t.attempt - 1
    case TimedOut => AllTimeouts(rs) && |rs| == t.attempt
    case Sleeping => AllTimeouts(rs) && |rs| == t.attempt
    case Exhausted => AllTimeouts(rs) && |rs| == MAX_QUESTION_ATTEMPTS
    case GaveUp => AllTimeouts(rs) && |rs| == MAX_QUESTION_ATTEMPTS
    case Raised(error) => TimeoutsThen(rs, Failure(error)) && |rs| == t.attempt
    case Failed(error) => TimeoutsThen(rs, Failure(error)) && |rs| == t.attempt
    case Answered(text) => TimeoutsThen(rs, Answer(text)) && |rs| == t.attempt
    case Written(text) => TimeoutsThen(rs, Answer(text)) && |rs| == t.attempt
    case Succeeded(text) => TimeoutsThen(rs, Answer(text)) && |rs| == t.attempt
  }

  lemma {:induction false} StepExplains(ids: seq<string>, s: State, c: Choice, rs: seq<Reply>)
    requires |ids| == |s.tasks| && Enabled(s, c.task) && TaskOk(s.tasks[c.task]) && Explains(rs, s.tasks[c.task])
    ensures Explains(if s.tasks[c.task].pc.InFlight? then rs + [c.reply] else rs, After(ids, s, c).tasks[c.task])
  {
    if s.tasks[c.task].pc.InFlight? {
      assert (rs + [c.reply])[..|rs|] == rs;
    }
  }

  lemma {:induction false} RepliesExplain(ids: seq<string>, parallelism: nat, schedule: seq<Choice>, i: nat)
    requires Play(ids, parallelism, schedule).Some? && i < |ids|
    ensures Explains(Replies(ids, parallelism, schedule, i), Play(ids, parallelism, schedule).value.tasks[i])
  {
    if schedule != [] {
      var last := |schedule| - 1;
      var before, c := schedule[..last], schedule[last];
      var s := Play(ids, parallelism, before).value;
      RepliesExplain(ids, parallelism, before, i);
      PlayKeepsInv(ids, parallelism, before);
      StepTask(ids, s, c);
      if c.task == i { StepExplains(ids, s, c, Replies(ids, parallelism, before, i)); }
    }
  }

  /**
   How a coroutine that has returned ended, for every schedule and every server: answered or failed as
   its last request was, after timeouts only, or given up after three of them.
   */
  lemma {:induction false} EndsAsReplied(ids: seq<string>, parallelism: nat, schedule: seq<Choice>, i: nat)
    requires Play(ids, parallelism, schedule).Some? && i < |ids|
    requires IsFinished(Play(ids, parallelism, schedule).value.tasks[i])
    ensures var rs, pc := Replies(ids, parallelism, schedule, i), Play(ids, parallelism, schedule).value.tasks[i].pc;
            && 1 <= |rs| <= MAX_QUESTION_ATTEMPTS && AllTimeouts(rs[..|rs| - 1])
            && (forall text :: pc == Succeeded(text) <==> TimeoutsThen(rs, Answer(text)))
            && (forall error :: pc == Failed(error) <==> TimeoutsThen(rs, Failure(error)))
            && (pc == GaveUp <==> rs == [Timeout, Timeout, Timeout])
  {
    RepliesExplain(ids, parallelism, schedule, i);
    PlayKeepsInv(ids, parallelism, schedule);
    var rs := Replies(ids, parallelism, schedule, i);
    assert TaskOk(Play(ids, parallelism, schedule).value.tasks[i]);
    assert rs == rs[..|rs| - 1] + [rs[|rs| - 1]];
  }

  // ---------------------------------------------------------------- what is written

  predicate HasWritten(q: string, t: Task, r: Record) {
    q == r.questionId && match t.pc
                         case Written(text) => text == r.text
                         case Succeeded(text) => text == r.text
                         case _ => false
  }

  predicate HasFailedAs(q: string, t: Task, f: FailedRecord) {
    q == f.questionId && match t.pc
                         case Failed(error) => error == f.error
                         case GaveUp => EXHAUSTED_ERROR == f.error
                         case _ => false
  }

  /** Coroutines that have written this record, and that have failed with this one. */
  function Wrote(r: Record): Weight { (q: string, t: Task) => Bit(HasWritten(q, t, r)) }

  function FailedAs(f: FailedRecord): Weight { (q: string, t: Task) => Bit(HasFailedAs(q, t, f)) }

  lemma {:induction false} SnocCount<T>(xs: seq<T>, x: T, y: T)
    ensures multiset(xs + [x])[y] == multiset(xs)[y] + if x == y then 1 else 0
  {}

  lemma {:induction false} StepWritten(ids: seq<string>, s: State, c: Choice, r: Record)
    requires |ids| == |s.tasks| && Enabled(s, c.task) && TaskOk(s.tasks[c.task])
    ensures multiset(After(ids, s, c).lines)[r] + Bit(HasWritten(ids[c.task], s.tasks[c.task], r))
         == multiset(s.lines)[r] + Bit(HasWritten(ids[c.task], After(ids, s, c).tasks[c.task], r))
  {
    var t := s.tasks[c.task];
    if t.pc.Answered? { SnocCount(s.lines, Record(ids[c.task], t.pc.text), r); }
  }

  lemma {:induction false} StepLines(ids: seq<string>, s: State, c: Choice, r: Record)
    requires |ids| == |s.tasks| && Enabled(s, c.task) && TaskOk(s.tasks[c.task])
    requires multiset(s.lines)[r] == Sum(ids, s.tasks, Wrote(r))
    ensures multiset(After(ids, s, c).lines)[r] == Sum(ids, After(ids, s, c).tasks, Wrote(r))
  {
    StepTask(ids, s, c);
    StepWritten(ids, s, c, r);
    SumUpdate(ids, s.tasks, Wrote(r), c.task, After(ids, s, c).tasks[c.task]);
  }

  lemma {:induction false} StepFailedAs(ids: seq<string>, s: State, c: Choice, f: FailedRecord)
    requires |ids| == |s.tasks| && Enabled(s, c.task) && TaskOk(s.tasks[c.task])
    ensures multiset(After(ids, s, c).failed)[f] + Bit(HasFailedAs(ids[c.task], s.tasks[c.task], f))
         == multiset(s.failed)[f] + Bit(HasFailedAs(ids[c.task], After(ids, s, c).tasks[c.task], f))
  {
    var t := s.tasks[c.task];
    if t.pc.Raised? { SnocCount(s.failed, FailedRecord(ids[c.task], t.pc.error), f); }
    if t.pc.Exhausted? { SnocCount(s.failed, FailedRecord(ids[c.task], EXHAUSTED_ERROR), f); }
  }

  lemma {:induction false} StepFailures(ids: seq<string>, s: State, c: Choice, f: FailedRecord)
    requires |ids| == |s.tasks| && Enabled(s, c.task) && TaskOk(s.tasks[c.task])
    requires multiset(s.failed)[f] == Sum(ids, s.tasks, FailedAs(f))
    ensures multiset(After(ids, s, c).failed)[f] == Sum(ids, After(ids, s, c).tasks, FailedAs(f))
  {
    StepTask(ids, s, c);
    StepFailedAs(ids, s, c, f);
    SumUpdate(ids, s.tasks, FailedAs(f), c.task, After(ids, s, c).tasks[c.task]);
  }

  lemma {:induction false} NothingYet(ids: seq<string>, parallelism: nat, w: Weight)
    requires forall q: string :: w(q, Task(1, Queued)) == 0
    ensures Sum(ids, Start(ids, parallelism).tasks, w) == 0
  {
    SumConstant(ids, Start(ids, parallelism).tasks, w, 0);
  }

  /** Each record stands in the file as often as a coroutine has written it. */
  lemma {:induction false} LinesAreOutcomes(ids: seq<string>, parallelism: nat, schedule: seq<Choice>, r: Record)
    requires Play(ids, parallelism, schedule).Some?
    ensures var s := Play(ids, parallelism, schedule).value; multiset(s.lines)[r] == Sum(ids, s.tasks, Wrote(r))
  {
    if schedule == [] {
      forall q: string ensures Wrote(r)(q, Task(1, Queued)) == 0 {}
      NothingYet(ids, parallelism, Wrote(r));
    } else {
      var last := |schedule| - 1;
      LinesAreOutcomes(ids, parallelism, schedule[..last], r);
      PlayKeepsInv(ids, parallelism, schedule[..last]);
      StepLines(ids, Play(ids, parallelism, schedule[..last]).value, schedule[last], r);
    }
  }

  lemma {:induction false} FailuresAreOutcomes(ids: seq<string>, parallelism: nat, schedule: seq<Choice>,
                                               f: FailedRecord)
    requires Play(ids, parallelism, schedule).Some?
    ensures var s := Play(ids, parallelism, schedule).value; multiset(s.failed)[f] == Sum(ids, s.tasks, FailedAs(f))
  {
    if schedule == [] {
      forall q: string ensures FailedAs(f)(q, Task(1, Queued)) == 0 {}
      NothingYet(ids, parallelism, FailedAs(f));
    } else {
      var last := |schedule| - 1;
      FailuresAreOutcomes(ids, parallelism, schedule[..last], f);
      PlayKeepsInv(ids, parallelism, schedule[..last]);
      StepFailures(ids, Play(ids, parallelism, schedule[..last]).value, schedule[last], f);
    }
  }

  ghost function Ones(ids: seq<string>, tasks: seq<Task>, w: Weight): set<int>
    requires |ids| == |tasks|
  {
    set i | 0 <= i < |tasks| && w(ids[i], tasks[i]) == 1
  }

  lemma {:induction false} OnesSnoc(ids: seq<string>, tasks: seq<Task>, w: Weight)
    requires |ids| == |tasks| > 0
    ensures var last := |tasks| - 1;
            var more := if w(ids[last], tasks[last]) == 1 then {last} else {};
            Ones(ids, tasks, w) == Ones(ids[..last], tasks[..last], w) + more
  {
    var last := |tasks| - 1;
    assert forall i | 0 <= i < last :: ids[..last][i] == ids[i] && tasks[..last][i] == tasks[i];
  }

  lemma {:induction false} SumIsSize(ids: seq<string>, tasks: seq<Task>, w: Weight)
    requires |ids| == |tasks| && forall i | 0 <= i < |tasks| :: w(ids[i], tasks[i]) <= 1
    ensures Sum(ids, tasks, w) == |Ones(ids, tasks, w)|
  {
    if tasks != [] {
      var last := |tasks| - 1;
      SumIsSize(ids[..last], tasks[..last], w);
      OnesSnoc(ids, tasks, w);
    }
  }

  /** The coroutines for this id whose requests ended with this answer, after timeouts only. */
  function AnsweredWith(ids: seq<string>, parallelism: nat, schedule: seq<Choice>, r: Record): set<int> {
    set i | 0 <= i < |ids| && ids[i] == r.questionId
        && TimeoutsThen(Replies(ids, parallelism, schedule, i), Answer(r.text))
  }

  predicate EndsInFailure(rs: seq<Reply>, error: string) {
    TimeoutsThen(rs, Failure(error)) || (error == EXHAUSTED_ERROR && rs == [Timeout, Timeout, Timeout])
  }

  /** Those whose requests ended with this failure, or timed out three times. */
  function FailedWith(ids: seq<string>, parallelism: nat, schedule: seq<Choice>, f: FailedRecord): set<int> {
    set i | 0 <= i < |ids| && ids[i] == f.questionId && EndsInFailure(Replies(ids, parallelism, schedule, i), f.error)
  }

  lemma {:induction false} AnsweredOnes(ids: seq<string>, parallelism: nat, schedule: seq<Choice>, r: Record)
    requires Play(ids, parallelism, schedule).Some?
    requires forall i | 0 <= i < |ids| :: IsFinished(Play(ids, parallelism, schedule).value.tasks[i])
    ensures var tasks := Play(ids, parallelism, schedule).value.tasks;
            Ones(ids, tasks, Wrote(r)) == AnsweredWith(ids, parallelism, schedule, r)
  {
    var tasks := Play(ids, parallelism, schedule).value.tasks;
    forall i: nat | i < |ids|
      ensures Wrote(r)(ids[i], tasks[i]) == 1 <==>
                ids[i] == r.questionId && TimeoutsThen(Replies(ids, parallelism, schedule, i), Answer(r.text))
    {
      EndsAsReplied(ids, parallelism, schedule, i);
      assert tasks[i].pc == Succeeded(r.text) <==> TimeoutsThen(Replies(ids, parallelism, schedule, i), Answer(r.text));
    }
  }

  /** Once all coroutines have returned, the file holds each answer once for each coroutine that got it. */
  lemma {:induction false} FileIsReplies(ids: seq<string>, parallelism: nat, schedule: seq<Choice>, r: Record)
    requires Play(ids, parallelism, schedule).Some?
    requires forall i | 0 <= i < |ids| :: IsFinished(Play(ids, parallelism, schedule).value.tasks[i])
    ensures multiset(Play(ids, parallelism, schedule).value.lines)[r] == |AnsweredWith(ids, parallelism, schedule, r)|
  {
    LinesAreOutcomes(ids, parallelism, schedule, r);
    SumIsSize(ids, Play(ids, parallelism, schedule).value.tasks, Wrote(r));
    AnsweredOnes(ids, parallelism, schedule, r);
  }

  lemma {:induction false} FailedOnes(ids: seq<string>, parallelism: nat, schedule: seq<Choice>, f: FailedRecord)
    requires Play(ids, parallelism, schedule).Some?
    requires forall i | 0 <= i < |ids| :: IsFinished(Play(ids, parallelism, schedule).value.tasks[i])
    ensures var tasks := Play(ids, parallelism, schedule).value.tasks;
            Ones(ids, tasks, FailedAs(f)) == FailedWith(ids, parallelism, schedule, f)
  {
    var tasks := Play(ids, parallelism, schedule).value.tasks;
    forall i: nat | i < |ids|
      ensures FailedAs(f)(ids[i], tasks[i]) == 1 <==>
                ids[i] == f.questionId && EndsInFailure(Replies(ids, parallelism, schedule, i), f.error)
    {
      EndsAsReplied(ids, parallelism, schedule, i);
      assert tasks[i].pc == Failed(f.error) <==> TimeoutsThen(Replies(ids, parallelism, schedule, i), Failure(f.error));
    }
  }

  /** And the failures each error once for each coroutine that met it or gave up. */
  lemma {:induction false} FailuresAreReplies(ids: seq<string>, parallelism: nat, schedule: seq<Choice>,
                                              f: FailedRecord)
    requires Play(ids, parallelism, schedule).Some?
    requires forall i | 0 <= i < |ids| :: IsFinished(Play(ids, parallelism, schedule).value.tasks[i])
    ensures multiset(Play(ids, parallelism, schedule).value.failed)[f] == |FailedWith(ids, parallelism, schedule, f)|
  {
    FailuresAreOutcomes(ids, parallelism, schedule, f);
    SumIsSize(ids, Play(ids, parallelism, schedule).value.tasks, FailedAs(f));
    FailedOnes(ids, parallelism, schedule, f);
  }

  // ---------------------------------------------------------------- the timeouts

  predicate WaitsToCount(t: Task) { t.pc.TimedOut? }

  /** Every timeout is counted, or about to be. */
  lemma {:induction false} TimeoutsAreCounted(ids: seq<string>, parallelism: nat, schedule: seq<Choice>)
    requires Play(ids, parallelism, schedule).Some?
    ensures var s := Play(ids, parallelism, schedule).value;
            s.stuck + Count(ids, s.tasks, WaitsToCount) == TimedOutRequests(ids, parallelism, schedule)
  {
    if schedule == [] {
      CountNone(ids, Start(ids, parallelism).tasks, WaitsToCount, "");
    } else {
      var last := |schedule| - 1;
      var s, c := Play(ids, parallelism, schedule[..last]).value, schedule[last];
      TimeoutsAreCounted(ids, parallelism, schedule[..last]);
      PlayKeepsInv(ids, parallelism, schedule[..last]);
      StepTask(ids, s, c);
      CountUpdate(ids, s.tasks, WaitsToCount, c.task, After(ids, s, c).tasks[c.task]);
    }
  }

  /**
   What a run that has come to rest amounts to: every coroutine ended as its replies say, and the counter
   of stuck requests is the number of timeouts.
   */
  lemma {:induction false} RestIsReplied(ids: seq<string>, parallelism: nat, schedule: seq<Choice>)
    requires parallelism >= 1 && Play(ids, parallelism, schedule).Some?
    requires forall i: nat :: !Enabled(Play(ids, parallelism, schedule).value, i)
    ensures var s := Play(ids, parallelism, schedule).value;
            && (forall i | 0 <= i < |ids| :: IsFinished(s.tasks[i]))
            && s.stuck == TimedOutRequests(ids, parallelism, schedule)
  {
    var s := Play(ids, parallelism, schedule).value;
    PlayKeepsInv(ids, parallelism, schedule);
    TimeoutsAreCounted(ids, parallelism, schedule);
    assert (exists i :: 0 <= i < |ids| && !IsFinished(s.tasks[i])) ==> exists i: nat :: Enabled(s, i) by {
      if exists i :: 0 <= i < |ids| && !IsFinished(s.tasks[i]) { NeverStuck(ids, parallelism, s); }
    }
    CountNone(ids, s.tasks, WaitsToCount, "");
  }
}
