/**
 The concurrent question runner of run_enterpriserag_bench_questions.py.

 One coroutine per question shares a semaphore, two locks, counters and an append-only file.
 Neither locked region awaits anything, so each is one atomic step; so is taking a permit, and
 so is giving it back together with the outcome of the request. A run is any interleaving of
 those steps.
 */
module QuestionTasks {
  import opened Outcomes

  const MAX_QUESTION_ATTEMPTS: nat := 3

  const EXHAUSTED_ERROR := "Timed out after 300s on attempt 3/3"

  /** What one request comes back with: the environment decides. */
  datatype Reply = Answer(text: string) | Timeout | Failure(error: string)

  /** Where a coroutine stands between two atomic steps. */
  datatype Pc =
    | Queued                    // about to take a permit
    | InFlight                  // holds a permit, request sent
    | TimedOut                  // permit returned, timeout not yet counted
    | Sleeping                  // timeout counted, pausing before the next attempt
    | Exhausted                 // every attempt timed out, failure not yet counted
    | Raised(error: string)     // permit returned, failure not yet counted
    | Answered(text: string)    // permit returned, line not yet written
    | Written(text: string)     // line written, success not yet counted
    | Succeeded(text: string)
    | Failed(error: string)
    | GaveUp

  datatype Task = Task(attempt: nat, pc: Pc)

  datatype Record = Record(questionId: string, text: string)

  datatype FailedRecord = FailedRecord(questionId: string, error: string)

  datatype State = State(
    permits: nat,
    tasks: seq<Task>,
    lines: seq<Record>,
    completed: nat,
    successful: nat,
    stuck: nat,
    failed: seq<FailedRecord>)

  /** One scheduling decision: which coroutine moves, and the reply it gets if it is in flight. */
  datatype Choice = Choice(task: nat, reply: Reply)

  predicate IsInFlight(t: Task) { t.pc.InFlight? }

  predicate HasLine(t: Task) { t.pc.Written? || t.pc.Succeeded? }

  predicate HasSucceeded(t: Task) { t.pc.Succeeded? }

  predicate HasFailed(t: Task) { t.pc.Failed? || t.pc.GaveUp? }

  predicate IsFinished(t: Task) { HasSucceeded(t) || HasFailed(t) }

  /** Requests this coroutine has sent so far. */
  function Requests(t: Task): nat {
    if t.pc.Queued? && t.attempt > 0 then t.attempt - 1 else t.attempt
  }

  /** Timeouts of this coroutine that the shared counter has already seen. */
  function CountedTimeouts(t: Task): nat {
    if t.pc.Sleeping? || t.pc.Exhausted? || t.pc.GaveUp? || t.attempt == 0
    then t.attempt else t.attempt - 1
  }

  function Start(ids: seq<string>, parallelism: nat): State {
    State(parallelism, seq(|ids|, i => Task(1, Queued)), [], 0, 0, 0, [])
  }

  predicate Enabled(s: State, i: nat) {
    && i < |s.tasks|
    && !IsFinished(s.tasks[i])
    && (s.tasks[i].pc.Queued? ==> s.permits > 0)
  }

  /** The state after coroutine `i` makes its next atomic step. */
  function After(ids: seq<string>, s: State, c: Choice): State
    requires Enabled(s, c.task) && |ids| == |s.tasks|
  {
    var i, t := c.task, s.tasks[c.task];
    match t.pc
    case Queued =>
      s.(permits := s.permits - 1, tasks := s.tasks[i := t.(pc := InFlight)])
    case InFlight =>
      var pc := match c.reply
        case Answer(text) => Answered(text)
        case Timeout => TimedOut
        case Failure(error) => Raised(error);
      s.(permits := s.permits + 1, tasks := s.tasks[i := t.(pc := pc)])
    case TimedOut =>
      s.(stuck := s.stuck + 1, tasks := s.tasks[i := t.(pc := Sleeping)])
    case Sleeping =>
      var next := if t.attempt < MAX_QUESTION_ATTEMPTS then Task(t.attempt + 1, Queued) else t.(pc := Exhausted);
      s.(tasks := s.tasks[i := next])
    case Raised(error) =>
      s.(completed := s.completed + 1,
         failed := s.failed + [FailedRecord(ids[i], error)],
         tasks := s.tasks[i := t.(pc := Failed(error))])
    case Exhausted =>
      s.(completed := s.completed + 1,
         failed := s.failed + [FailedRecord(ids[i], EXHAUSTED_ERROR)],
         tasks := s.tasks[i := t.(pc := GaveUp)])
    case Answered(text) =>
      s.(lines := s.lines + [Record(ids[i], text)], tasks := s.tasks[i := t.(pc := Written(text))])
    case Written(text) =>
      s.(completed := s.completed + 1,
         successful := s.successful + 1,
         tasks := s.tasks[i := t.(pc := Succeeded(text))])
    case _ => s
  }

  /** The state a schedule leads to, or None when it asks a coroutine to move that cannot. */
  function Play(ids: seq<string>, parallelism: nat, schedule: seq<Choice>): (r: Option<State>)
    ensures r.Some? ==> |r.value.tasks| == |ids|
  {
    if schedule == [] then Some(Start(ids, parallelism))
    else
      var last := |schedule| - 1;
      match Play(ids, parallelism, schedule[..last])
      case None => None
      case Some(s) =>
        if Enabled(s, schedule[last].task) then Some(After(ids, s, schedule[last])) else None
  }

  lemma {:induction false} PlaySnoc(ids: seq<string>, parallelism: nat, schedule: seq<Choice>, c: Choice)
    requires Play(ids, parallelism, schedule).Some? && Enabled(Play(ids, parallelism, schedule).value, c.task)
    ensures Play(ids, parallelism, schedule + [c]) == Some(After(ids, Play(ids, parallelism, schedule).value, c))
  {
    assert (schedule + [c])[..|schedule|] == schedule;
  }

  // ---------------------------------------------------------------- sums over coroutines

  type Weight = (string, Task) -> nat

  /** The total weight of the coroutines, each seen with the id of its question. */
  function Sum(ids: seq<string>, tasks: seq<Task>, w: Weight): nat
    requires |ids| == |tasks|
  {
    if tasks == [] then 0
    else
      var last := |tasks| - 1;
      Sum(ids[..last], tasks[..last], w) + w(ids[last], tasks[last])
  }

  function Bit(b: bool): nat { if b then 1 else 0 }

  function Kept(keep: Task -> bool): Weight { (q, t) => Bit(keep(t)) }

  function KeptOf(keep: Task -> bool, id: string): Weight { (q, t) => Bit(q == id && keep(t)) }

  function Count(ids: seq<string>, tasks: seq<Task>, keep: Task -> bool): nat
    requires |ids| == |tasks|
  {
    Sum(ids, tasks, Kept(keep))
  }

  /** How many coroutines for question `id` satisfy `keep`. */
  function CountOf(ids: seq<string>, tasks: seq<Task>, keep: Task -> bool, id: string): nat
    requires |ids| == |tasks|
  {
    Sum(ids, tasks, KeptOf(keep, id))
  }

  lemma {:induction false} SumUpdate(ids: seq<string>, tasks: seq<Task>, w: Weight, i: nat, t: Task)
    requires |ids| == |tasks| && i < |tasks|
    ensures Sum(ids, tasks[i := t], w) + w(ids[i], tasks[i]) == Sum(ids, tasks, w) + w(ids[i], t)
  {
    var last := |tasks| - 1;
    if i == last {
      assert tasks[i := t][..last] == tasks[..last];
    } else {
      SumUpdate(ids[..last], tasks[..last], w, i, t);
      assert tasks[i := t][..last] == tasks[..last][i := t];
    }
  }

  lemma {:induction false} CountUpdate(ids: seq<string>, tasks: seq<Task>, keep: Task -> bool, i: nat, t: Task)
    requires |ids| == |tasks| && i < |tasks|
    ensures Count(ids, tasks[i := t], keep) + Bit(keep(tasks[i])) == Count(ids, tasks, keep) + Bit(keep(t))
  {
    SumUpdate(ids, tasks, Kept(keep), i, t);
  }

  lemma {:induction false} CountOfUpdate(ids: seq<string>, tasks: seq<Task>, keep: Task -> bool, id: string, i: nat,
                                         t: Task)
    requires |ids| == |tasks| && i < |tasks|
    ensures CountOf(ids, tasks[i := t], keep, id) + Bit(ids[i] == id && keep(tasks[i]))
         == CountOf(ids, tasks, keep, id) + Bit(ids[i] == id && keep(t))
  {
    SumUpdate(ids, tasks, KeptOf(keep, id), i, t);
  }

  lemma {:induction false} SumConstant(ids: seq<string>, tasks: seq<Task>, w: Weight, k: nat)
    requires |ids| == |tasks|
    requires forall i | 0 <= i < |tasks| :: w(ids[i], tasks[i]) == k
    ensures Sum(ids, tasks, w) == k * |tasks|
  {
    if tasks != [] { SumConstant(ids[..|tasks| - 1], tasks[..|tasks| - 1], w, k); }
  }

  lemma {:induction false} CountNone(ids: seq<string>, tasks: seq<Task>, keep: Task -> bool, id: string)
    requires |ids| == |tasks|
    requires forall i | 0 <= i < |tasks| :: !keep(tasks[i])
    ensures Count(ids, tasks, keep) == CountOf(ids, tasks, keep, id) == 0
  {
    SumConstant(ids, tasks, Kept(keep), 0);
    SumConstant(ids, tasks, KeptOf(keep, id), 0);
  }

  lemma {:induction false} SumPositive(ids: seq<string>, tasks: seq<Task>, w: Weight)
    requires |ids| == |tasks|
    ensures Sum(ids, tasks, w) > 0 <==> exists i :: 0 <= i < |ids| && w(ids[i], tasks[i]) > 0
  {
    if tasks != [] {
      var last := |tasks| - 1;
      SumPositive(ids[..last], tasks[..last], w);
      if i :| 0 <= i < last && w(ids[..last][i], tasks[..last][i]) > 0 {
        assert w(ids[i], tasks[i]) > 0;
      }
      if i :| 0 <= i < |ids| && w(ids[i], tasks[i]) > 0 && i != last {
        assert w(ids[..last][i], tasks[..last][i]) > 0;
      }
    }
  }

  /** Two weights that together never exceed a third never do so in total; likewise equality. */
  lemma {:induction false} SumAdd(ids: seq<string>, tasks: seq<Task>, v: Weight, w: Weight, all: Weight)
    requires |ids| == |tasks|
    requires forall i | 0 <= i < |tasks| :: v(ids[i], tasks[i]) + w(ids[i], tasks[i]) <= all(ids[i], tasks[i])
    ensures Sum(ids, tasks, v) + Sum(ids, tasks, w) <= Sum(ids, tasks, all)
    ensures (forall i | 0 <= i < |tasks| :: v(ids[i], tasks[i]) + w(ids[i], tasks[i]) == all(ids[i], tasks[i]))
            ==> Sum(ids, tasks, v) + Sum(ids, tasks, w) == Sum(ids, tasks, all)
  {
    if tasks != [] {
      var last := |tasks| - 1;
      SumAdd(ids[..last], tasks[..last], v, w, all);
      if forall i | 0 <= i < |tasks| :: v(ids[i], tasks[i]) + w(ids[i], tasks[i]) == all(ids[i], tasks[i]) {
        assert forall i | 0 <= i < last :: ids[..last][i] == ids[i] && tasks[..last][i] == tasks[i];
      }
    }
  }

  lemma {:induction false} CountAll(ids: seq<string>, tasks: seq<Task>, keep: Task -> bool, id: string)
    requires |ids| == |tasks|
    requires forall i | 0 <= i < |tasks| :: keep(tasks[i])
    ensures CountOf(ids, tasks, keep, id) == multiset(ids)[id]
    ensures Count(ids, tasks, keep) == |ids|
  {
    if tasks != [] {
      var last := |tasks| - 1;
      CountAll(ids[..last], tasks[..last], keep, id);
      assert ids == ids[..last] + [ids[last]];
    } else {
      assert ids == [];
    }
  }

  /** Two exclusive properties never count more than everything, and exactly everything when they cover it. */
  lemma {:induction false} CountSplit(ids: seq<string>, tasks: seq<Task>, p: Task -> bool, q: Task -> bool, id: string)
    requires |ids| == |tasks|
    requires forall t: Task :: !(p(t) && q(t))
    ensures Count(ids, tasks, p) + Count(ids, tasks, q) <= |ids|
    ensures CountOf(ids, tasks, p, id) + CountOf(ids, tasks, q, id) <= multiset(ids)[id]
    ensures (forall i | 0 <= i < |tasks| :: p(tasks[i]) || q(tasks[i])) ==>
              && Count(ids, tasks, p) + Count(ids, tasks, q) == |ids|
              && CountOf(ids, tasks, p, id) + CountOf(ids, tasks, q, id) == multiset(ids)[id]
  {
    var all: Task -> bool := t => true;
    CountAll(ids, tasks, all, id);
    SumAdd(ids, tasks, Kept(p), Kept(q), Kept(all));
    SumAdd(ids, tasks, KeptOf(p, id), KeptOf(q, id), KeptOf(all, id));
  }

  /** A property that implies another counts no more; if they agree here, the same. */
  lemma {:induction false} CountMonotone(ids: seq<string>, tasks: seq<Task>, p: Task -> bool, q: Task -> bool)
    requires |ids| == |tasks|
    requires forall t: Task :: p(t) ==> q(t)
    ensures Count(ids, tasks, p) <= Count(ids, tasks, q)
    ensures (forall i | 0 <= i < |tasks| :: q(tasks[i]) ==> p(tasks[i])) ==>
              Count(ids, tasks, p) == Count(ids, tasks, q)
  {
    SumConstant(ids, tasks, (q, t) => 0, 0);
    SumAdd(ids, tasks, Kept(p), (q, t) => 0, Kept(q));
  }

  lemma {:induction false} CountOfMember(ids: seq<string>, tasks: seq<Task>, keep: Task -> bool, id: string)
    requires |ids| == |tasks|
    ensures CountOf(ids, tasks, keep, id) > 0 <==> exists i :: 0 <= i < |ids| && ids[i] == id && keep(tasks[i])
  {
    SumPositive(ids, tasks, KeptOf(keep, id));
    if i :| 0 <= i < |ids| && KeptOf(keep, id)(ids[i], tasks[i]) > 0 {
      assert ids[i] == id && keep(tasks[i]);
    }
    if i :| 0 <= i < |ids| && ids[i] == id && keep(tasks[i]) {
      assert KeptOf(keep, id)(ids[i], tasks[i]) > 0;
    }
  }

  lemma {:induction false} SumBound(ids: seq<string>, tasks: seq<Task>, w: Weight, k: nat)
    requires |ids| == |tasks|
    requires forall i | 0 <= i < |tasks| :: w(ids[i], tasks[i]) <= k
    ensures Sum(ids, tasks, w) <= k * |tasks|
  {
    if tasks != [] { SumBound(ids[..|tasks| - 1], tasks[..|tasks| - 1], w, k); }
  }

  function LineIds(lines: seq<Record>): (r: seq<string>)
    ensures |r| == |lines| && forall i | 0 <= i < |r| :: r[i] == lines[i].questionId
  {
    seq(|lines|, i requires 0 <= i < |lines| => lines[i].questionId)
  }

  function FailedIds(failed: seq<FailedRecord>): (r: seq<string>)
    ensures |r| == |failed| && forall i | 0 <= i < |r| :: r[i] == failed[i].questionId
  {
    seq(|failed|, i requires 0 <= i < |failed| => failed[i].questionId)
  }
}
