/**
 Resuming the question runner from its output file: what the next run asks again after one that
 settled its work list, with repeated question ids and torn lines.
 */
module AnswerResume {
  import opened AnswerFile
  import opened Counting
  import opened Outcomes
  import opened QuestionRunner
  import opened QuestionTasks
  import opened Text

  // ---------------------------------------------------------------- every outcome happens

  /** The state once the first `k` coroutines have run one after another; `ok` says which are answered. */
  function Sequential(ids: seq<string>, parallelism: nat, ok: seq<bool>, k: nat): (s: State)
    requires |ok| == |ids| && k <= |ids|
    ensures |s.tasks| == |ids| && s.permits == parallelism
    ensures forall i | 0 <= i < k :: IsFinished(s.tasks[i])
    ensures forall i | k <= i < |ids| :: s.tasks[i] == Task(1, Queued)
  {
    if k == 0 then Start(ids, parallelism)
    else
      Ended(ids, Sequential(ids, parallelism, ok, k - 1), k - 1, ok[k - 1])
  }

  /** The state with coroutine `i` at a new place, and with as many permits. */
  function Moved(s: State, i: nat, pc: Pc, permits: nat): State
    requires i < |s.tasks|
  {
    s.(tasks := s.tasks[i := Task(1, pc)], permits := permits)
  }

  /** The state once coroutine `i` has ended, answered or failing at its first request. */
  function Ended(ids: seq<string>, s: State, i: nat, ok: bool): State
    requires i < |ids| == |s.tasks|
  {
    if ok then
      s.(tasks := s.tasks[i := Task(1, Succeeded(""))], lines := s.lines + [Record(ids[i], "")],
         completed := s.completed + 1, successful := s.successful + 1)
    else
      s.(tasks := s.tasks[i := Task(1, Failed(""))], failed := s.failed + [FailedRecord(ids[i], "")],
         completed := s.completed + 1)
  }

  lemma {:induction false} Requested(ids: seq<string>, s: State, i: nat, reply: Reply, pc: Pc)
    requires i < |ids| == |s.tasks| && s.tasks[i] == Task(1, Queued) && s.permits > 0
    requires (reply == Answer("") && pc == Answered("")) || (reply == Failure("") && pc == Raised(""))
    ensures After(ids, s, Choice(i, reply)) == Moved(s, i, InFlight, s.permits - 1)
    ensures After(ids, Moved(s, i, InFlight, s.permits - 1), Choice(i, reply)) == Moved(s, i, pc, s.permits)
  {
    assert Moved(s, i, InFlight, s.permits - 1).tasks[i := Task(1, pc)] == Moved(s, i, pc, s.permits).tasks;
  }

  lemma {:induction false} AnswerLogged(ids: seq<string>, s: State, i: nat, reply: Reply)
    requires i < |ids| == |s.tasks|
    ensures After(ids, Moved(s, i, Answered(""), s.permits), Choice(i, reply))
         == Moved(s, i, Written(""), s.permits).(lines := s.lines + [Record(ids[i], "")])
    ensures After(ids, Moved(s, i, Written(""), s.permits).(lines := s.lines + [Record(ids[i], "")]), Choice(i, reply))
         == Ended(ids, s, i, true)
  {
    assert Moved(s, i, Answered(""), s.permits).tasks[i := Task(1, Written(""))]
        == Moved(s, i, Written(""), s.permits).tasks;
    assert Moved(s, i, Written(""), s.permits).tasks[i := Task(1, Succeeded(""))] == Ended(ids, s, i, true).tasks;
  }

  lemma {:induction false} FailureLogged(ids: seq<string>, s: State, i: nat, reply: Reply)
    requires i < |ids| == |s.tasks|
    ensures After(ids, Moved(s, i, Raised(""), s.permits), Choice(i, reply)) == Ended(ids, s, i, false)
  {
    assert Moved(s, i, Raised(""), s.permits).tasks[i := Task(1, Failed(""))] == Ended(ids, s, i, false).tasks;
  }

  /** A coroutine that has not begun can run to its end at once. */
  lemma {:induction false} RunOne(ids: seq<string>, parallelism: nat, before: seq<Choice>, s: State, i: nat, ok: bool)
    returns (schedule: seq<Choice>)
    requires Play(ids, parallelism, before) == Some(s) && s.permits > 0
    requires i < |ids| == |s.tasks| && s.tasks[i] == Task(1, Queued)
    ensures Play(ids, parallelism, schedule) == Some(Ended(ids, s, i, ok))
  {
    var reply, pc := if ok then Answer("") else Failure(""), if ok then Answered("") else Raised("");
    var c := Choice(i, reply);
    Requested(ids, s, i, reply, pc);
    PlaySnoc(ids, parallelism, before, c);
    PlaySnoc(ids, parallelism, before + [c], c);
    PlaySnoc(ids, parallelism, before + [c] + [c], c);
    schedule := before + [c] + [c] + [c];
    if ok {
      AnswerLogged(ids, s, i, reply);
      PlaySnoc(ids, parallelism, schedule, c);
      schedule := schedule + [c];
    } else {
      FailureLogged(ids, s, i, reply);
    }
  }

  /** Every pattern of answers and failures is the outcome of some run. */
  lemma {:induction false} EveryOutcomeHappens(ids: seq<string>, parallelism: nat, ok: seq<bool>, k: nat)
    returns (schedule: seq<Choice>)
    requires parallelism >= 1 && |ok| == |ids| && k <= |ids|
    ensures Play(ids, parallelism, schedule) == Some(Sequential(ids, parallelism, ok, k))
  {
    schedule := [];
    if k > 0 {
      schedule := EveryOutcomeHappens(ids, parallelism, ok, k - 1);
      schedule := RunOne(ids, parallelism, schedule, Sequential(ids, parallelism, ok, k - 1), k - 1, ok[k - 1]);
    }
  }

  lemma {:induction false} SequentialLogs(ids: seq<string>, parallelism: nat, ok: seq<bool>, k: nat, i: nat)
    requires |ok| == |ids| && i < k <= |ids|
    ensures var s := Sequential(ids, parallelism, ok, k);
            if ok[i] then ids[i] in LineIds(s.lines) else ids[i] in FailedIds(s.failed)
  {
    var s, before := Sequential(ids, parallelism, ok, k), Sequential(ids, parallelism, ok, k - 1);
    if i == k - 1 {
      assert ok[i] ==> LineIds(s.lines)[|before.lines|] == ids[i];
      assert !ok[i] ==> FailedIds(s.failed)[|before.failed|] == ids[i];
    } else {
      SequentialLogs(ids, parallelism, ok, k - 1, i);
      if ok[k - 1] { assert LineIds(s.lines) == LineIds(before.lines) + [ids[k - 1]]; }
      else { assert FailedIds(s.failed) == FailedIds(before.failed) + [ids[k - 1]]; }
    }
  }

  lemma {:induction false} SequentialSettles(ids: seq<string>, parallelism: nat, ok: seq<bool>)
    requires parallelism >= 1 && |ok| == |ids|
    ensures Settled(ids, Sequential(ids, parallelism, ok, |ids|))
  {
    var schedule := EveryOutcomeHappens(ids, parallelism, ok, |ids|);
    PlayKeepsInv(ids, parallelism, schedule);
    FinishedIsSettled(ids, parallelism, Sequential(ids, parallelism, ok, |ids|));
  }

  // ---------------------------------------------------------------- a resumed run

  /** The loader returns these ids for this file. */
  ghost predicate LoadedFrom(render: Printer, parse: Parser, f: File, done: set<string>)
    requires ValidFile(render, f)
  {
    && Readable(parse, Lines(FileText(render, f)))
    && forall q :: q in done <==> Mentions(parse, Lines(FileText(render, f)), q)
  }

  lemma {:induction false} LoadedMeansRecorded(render: Printer, parse: Parser, f: File, done: set<string>)
    requires JsonLike(render, parse) && ValidFile(render, f) && LoadedFrom(render, parse, f, done)
    ensures forall q :: q in done <==> Recorded(render, f, q)
  {
    forall q
      ensures q in done <==> Recorded(render, f, q)
    {
      LoadedIsRecorded(render, parse, f, q);
    }
  }

  /** A loader that does not raise returns some set. */
  lemma {:induction false} SomethingIsLoaded(render: Printer, parse: Parser, f: File) returns (done: set<string>)
    requires ValidFile(render, f) && Readable(parse, Lines(FileText(render, f)))
    ensures LoadedFrom(render, parse, f, done)
  {
    var lines := Lines(FileText(render, f));
    var named := set k | 0 <= k < |lines| && ReadId(parse, lines[k]).Ok? && ReadId(parse, lines[k]).value.Some? :: k;
    done := set k | k in named :: ReadId(parse, lines[k]).value.value;
    forall q
      ensures q in done <==> Mentions(parse, lines, q)
    {
      if Mentions(parse, lines, q) {
        var k :| 0 <= k < |lines| && ReadId(parse, lines[k]) == Ok(Some(q));
        assert k in named;
      }
    }
  }

  /**
   A resumed run: `done` was loaded before it, `later` is loaded after it, `s` is how it ended. The
   questions may repeat an id, but `load_questions` lets no empty one through.
   */
  ghost predicate Resumed(render: Printer, parse: Parser, f: File, questions: seq<string>, done: set<string>,
                          s: State, later: set<string>)
  {
    && ValidFile(render, f) && LoadedFrom(render, parse, f, done)
    && "" !in questions
    && Settled(Remaining(questions, done), s)
    && ValidFile(render, AppendAll(render, f, s.lines))
        && LoadedFrom(render, parse, AppendAll(render, f, s.lines), later)
  }

  lemma {:induction false} WorkIsWrittenOrFailed(work: seq<string>, s: State, q: string)
    requires Settled(work, s)
    ensures q in work <==> q in LineIds(s.lines) || q in FailedIds(s.failed)
  {
    assert q in work <==> q in multiset(work);
    assert q in LineIds(s.lines) <==> q in multiset(LineIds(s.lines));
    assert q in FailedIds(s.failed) <==> q in multiset(FailedIds(s.failed));
  }

  predicate StartsTorn(f: File, s: State) { f.open != [] && s.lines != [] }

  /** The answers of the run that stand on lines of their own: without the first, when it began on a torn line. */
  function Standing(f: File, s: State): seq<string> {
    if StartsTorn(f, s) then LineIds(s.lines[1..]) else LineIds(s.lines)
  }

  /** The ids of the file that the run leaves readable. */
  ghost predicate StillRecorded(render: Printer, f: File, s: State, q: string) {
    Recorded(render, if StartsTorn(f, s) then f.(open := []) else f, q)
  }

  lemma {:induction false} LaterIs(render: Printer, parse: Parser, f: File, questions: seq<string>, done: set<string>,
                                   s: State, later: set<string>, q: string)
    requires JsonLike(render, parse) && Resumed(render, parse, f, questions, done, s, later)
    ensures q in done <==> Recorded(render, f, q)
    ensures q in later <==> StillRecorded(render, f, s, q) || q in Standing(f, s)
  {
    LoadedMeansRecorded(render, parse, f, done);
    LoadedMeansRecorded(render, parse, AppendAll(render, f, s.lines), later);
    CleanRunRecords(render, parse, f, s.lines, q);
  }

  /** The next run asks exactly the failed questions. */
  ghost predicate AsksTheFailures(questions: seq<string>, s: State, later: set<string>) {
    forall q :: q in Remaining(questions, later) <==> q in FailedIds(s.failed)
  }

  /**
   No failed question has an answer standing, the first answer of a run that began on a torn line is not
   missed, and the torn line was not the complete record of a question.
   */
  ghost predicate NothingMissed(render: Printer, f: File, questions: seq<string>, done: set<string>, s: State) {
    && (forall q | q in Standing(f, s) :: q !in FailedIds(s.failed))
    && (StartsTorn(f, s) ==> s.lines[0].questionId in Standing(f, s) || s.lines[0].questionId in FailedIds(s.failed))
    && (forall q | q in questions && q in done :: StillRecorded(render, f, s, q))
  }

  lemma {:induction false} WrittenIsFirstOrStanding(f: File, s: State, q: string)
    ensures q in LineIds(s.lines) <==> q in Standing(f, s) || (StartsTorn(f, s) && q == s.lines[0].questionId)
  {
    if StartsTorn(f, s) {
      assert LineIds(s.lines) == [s.lines[0].questionId] + LineIds(s.lines[1..]);
    }
  }

  /** When the next run asks exactly the failed questions, for every question file and every end of a run. */
  lemma {:induction false} NextWorkIsTheFailures(render: Printer, parse: Parser, f: File, questions: seq<string>,
                                                 done: set<string>, s: State, later: set<string>)
    requires JsonLike(render, parse) && Resumed(render, parse, f, questions, done, s, later)
    ensures AsksTheFailures(questions, s, later) <==> NothingMissed(render, f, questions, done, s)
  {
    if NothingMissed(render, f, questions, done, s) {
      forall q
        ensures q in Remaining(questions, later) <==> q in FailedIds(s.failed)
      {
        NextWorkAt(render, parse, f, questions, done, s, later, q);
      }
    }
    if AsksTheFailures(questions, s, later) {
      forall q
        ensures q in Standing(f, s) ==> q !in FailedIds(s.failed)
        ensures StartsTorn(f, s) && q == s.lines[0].questionId ==> q in Standing(f, s) || q in FailedIds(s.failed)
        ensures q in questions && q in done ==> StillRecorded(render, f, s, q)
      {
        assert q in Remaining(questions, later) <==> q in FailedIds(s.failed);
        NextWorkAt(render, parse, f, questions, done, s, later, q);
      }
    }
  }

  /** What the next run does with one question. */
  lemma {:induction false} NextWorkAt(render: Printer, parse: Parser, f: File, questions: seq<string>,
                                      done: set<string>, s: State, later: set<string>, q: string)
    requires JsonLike(render, parse) && Resumed(render, parse, f, questions, done, s, later)
    ensures q in Remaining(questions, later) <==>
              && !StillRecorded(render, f, s, q) && q !in Standing(f, s)
              && (|| q in FailedIds(s.failed) || (StartsTorn(f, s) && q == s.lines[0].questionId)
                  || (q in questions && q in done))
    ensures StillRecorded(render, f, s, q) ==> q in done
    ensures q in LineIds(s.lines) || q in FailedIds(s.failed) ==> q in questions && q !in done
    ensures q in Standing(f, s) ==> q in LineIds(s.lines)
  {
    LaterIs(render, parse, f, questions, done, s, later, q);
    WorkIsWrittenOrFailed(Remaining(questions, done), s, q);
    WrittenIsFirstOrStanding(f, s, q);
  }

  // ---------------------------------------------------------------- files without repeated ids

  lemma {:induction false} RemainingDistinct(questions: seq<string>, done: set<string>)
    requires Distinct(questions)
    ensures Distinct(Remaining(questions, done))
  {
    if questions != [] {
      assert forall i | 0 <= i < |questions[1..]| :: questions[1..][i] == questions[i + 1] != questions[0];
      RemainingDistinct(questions[1..], done);
    }
  }

  lemma {:induction false} DistinctCount(ids: seq<string>, q: string)
    requires Distinct(ids)
    ensures multiset(ids)[q] == if q in ids then 1 else 0
  {
    if ids != [] {
      DistinctCount(ids[1..], q);
      assert ids == [ids[0]] + ids[1..];
      assert forall i | 0 <= i < |ids[1..]| :: ids[1..][i] == ids[i + 1] != ids[0];
    }
  }

  lemma {:induction false} OnceEach(work: seq<string>, written: seq<string>, failed: seq<string>, q: string)
    requires Distinct(work) && multiset(written) + multiset(failed) == multiset(work)
    ensures !(q in written && q in failed)
  {
    DistinctCount(work, q);
    assert (multiset(written) + multiset(failed))[q] == multiset(written)[q] + multiset(failed)[q];
    assert q in written <==> q in multiset(written);
    assert q in failed <==> q in multiset(failed);
  }

  lemma {:induction false} FirstOnlyOnce(work: seq<string>, written: seq<string>, failed: seq<string>)
    requires Distinct(work) && multiset(written) + multiset(failed) == multiset(work) && written != []
    ensures written[0] !in written[1..]
  {
    var q := written[0];
    DistinctCount(work, q);
    assert written == [q] + written[1..];
    assert multiset(written)[q] == 1 + multiset(written[1..])[q];
    assert (multiset(written) + multiset(failed))[q] == multiset(written)[q] + multiset(failed)[q];
    assert q in written[1..] <==> q in multiset(written[1..]);
  }

  /**
   When no id is asked twice, the next run asks exactly the failed questions if and only if this one did
   not start on a torn line or wrote nothing. Distinct ids in the question file are enough for that.
   */
  lemma {:induction false} DistinctWorkIff(render: Printer, parse: Parser, f: File, questions: seq<string>,
                                           done: set<string>, s: State, later: set<string>)
    requires JsonLike(render, parse) && Resumed(render, parse, f, questions, done, s, later)
    requires Distinct(Remaining(questions, done))
    ensures AsksTheFailures(questions, s, later) <==> !StartsTorn(f, s)
  {
    NextWorkIsTheFailures(render, parse, f, questions, done, s, later);
    LoadedMeansRecorded(render, parse, f, done);
    var work := Remaining(questions, done);
    forall q
      ensures !(q in LineIds(s.lines) && q in FailedIds(s.failed))
    {
      OnceEach(work, LineIds(s.lines), FailedIds(s.failed), q);
    }
    if StartsTorn(f, s) { FirstIsLost(work, s); }
  }

  /** Starting on a torn line, a run loses its first answer: that question is asked again unless a later line has it. */
  lemma {:induction false} TornLineCostsAnAnswer(render: Printer, parse: Parser, f: File, questions: seq<string>,
                                                 done: set<string>, s: State, later: set<string>)
    requires JsonLike(render, parse) && Resumed(render, parse, f, questions, done, s, later) && StartsTorn(f, s)
    ensures var lost := s.lines[0].questionId;
            && (lost in Remaining(questions, later) <==> lost !in LineIds(s.lines[1..]))
            && (Distinct(questions) ==> lost in Remaining(questions, later) && lost !in FailedIds(s.failed))
  {
    NextWorkAt(render, parse, f, questions, done, s, later, s.lines[0].questionId);
    assert LineIds(s.lines)[0] == s.lines[0].questionId;
    if Distinct(questions) {
      RemainingDistinct(questions, done);
      FirstIsLost(Remaining(questions, done), s);
    }
  }

  lemma {:induction false} FirstIsLost(work: seq<string>, s: State)
    requires Distinct(work) && Settled(work, s) && s.lines != []
    ensures s.lines[0].questionId !in LineIds(s.lines[1..]) && s.lines[0].questionId !in FailedIds(s.failed)
  {
    assert LineIds(s.lines)[0] == s.lines[0].questionId;
    OnceEach(work, LineIds(s.lines), FailedIds(s.failed), s.lines[0].questionId);
    FirstOnlyOnce(work, LineIds(s.lines), FailedIds(s.failed));
    assert LineIds(s.lines[1..]) == LineIds(s.lines)[1..];
  }

  // ---------------------------------------------------------------- files with repeated ids

  lemma {:induction false} LinesNameWork(render: Printer, parse: Parser, f: File, questions: seq<string>,
                                         done: set<string>, s: State)
    requires JsonLike(render, parse) && ValidFile(render, f) && "" !in questions
                && Settled(Remaining(questions, done), s)
    ensures ValidFile(render, AppendAll(render, f, s.lines))
  {
    forall r | r in s.lines
      ensures r.questionId != ""
    {
      var k :| 0 <= k < |s.lines| && s.lines[k] == r;
      assert LineIds(s.lines)[k] == r.questionId;
      WorkIsWrittenOrFailed(Remaining(questions, done), s, r.questionId);
    }
    AppendAllValid(render, parse, f, s.lines);
  }

  /** The run in which exactly the coroutines chosen by `ok` are answered, and what is loaded after it. */
  lemma {:induction false} RunWith(render: Printer, parse: Parser, f: File, questions: seq<string>, done: set<string>,
                                   ok: seq<bool>)
    returns (s: State, later: set<string>)
    requires JsonLike(render, parse) && ValidFile(render, f) && LoadedFrom(render, parse, f, done) && "" !in questions
    requires |ok| == |Remaining(questions, done)|
    ensures s == Sequential(Remaining(questions, done), 1, ok, |ok|)
    ensures Resumed(render, parse, f, questions, done, s, later)
  {
    var work := Remaining(questions, done);
    s := Sequential(work, 1, ok, |work|);
    SequentialSettles(work, 1, ok);
    LinesNameWork(render, parse, f, questions, done, s);
    LoadableIff(render, parse, f);
    UndecodableStays(render, f, s.lines);
    LoadableIff(render, parse, AppendAll(render, f, s.lines));
    later := SomethingIsLoaded(render, parse, AppendAll(render, f, s.lines));
  }

  /**
   From a file without torn line, every run leaves exactly its failures to the next if and only if no id is
   to be asked twice: with a repeated id, one copy may be answered while the other fails.
   */
  lemma {:induction false} CleanStartIff(render: Printer, parse: Parser, f: File, questions: seq<string>,
                                         done: set<string>)
    requires JsonLike(render, parse) && ValidFile(render, f) && LoadedFrom(render, parse, f, done) && "" !in questions
    requires f.open == []
    ensures (forall s, later | Resumed(render, parse, f, questions, done, s, later) ::
                AsksTheFailures(questions, s, later))
       <==> Distinct(Remaining(questions, done))
  {
    var work := Remaining(questions, done);
    if Distinct(work) {
      forall s, later | Resumed(render, parse, f, questions, done, s, later)
        ensures AsksTheFailures(questions, s, later)
      {
        DistinctWorkIff(render, parse, f, questions, done, s, later);
      }
    } else {
      var i, j :| 0 <= i < j < |work| && work[i] == work[j];
      var s, later := RepeatedIsMissed(render, parse, f, questions, done, i, j);
    }
  }

  /** Of two coroutines for one id, one is answered and one fails: the failure is not asked again. */
  lemma {:induction false} RepeatedIsMissed(render: Printer, parse: Parser, f: File, questions: seq<string>,
                                            done: set<string>,
                                            i: nat, j: nat)
    returns (s: State, later: set<string>)
    requires JsonLike(render, parse) && ValidFile(render, f) && LoadedFrom(render, parse, f, done) && "" !in questions
    requires f.open == [] && i < j < |Remaining(questions, done)|
    requires Remaining(questions, done)[i] == Remaining(questions, done)[j]
    ensures Resumed(render, parse, f, questions, done, s, later)
    ensures var q := Remaining(questions, done)[i];
            q in FailedIds(s.failed) && q !in Remaining(questions, later) && !AsksTheFailures(questions, s, later)
  {
    var work := Remaining(questions, done);
    var ok := seq(|work|, k => k == i);
    s, later := RunWith(render, parse, f, questions, done, ok);
    SequentialLogs(work, 1, ok, |work|, i);
    SequentialLogs(work, 1, ok, |work|, j);
    NextWorkAt(render, parse, f, questions, done, s, later, work[i]);
  }

  // ---------------------------------------------------------------- a torn line that was complete

  /** The file after a crash between the text of a first record and its newline. */
  ghost function TornFile(render: Printer, p: string): File { File([], [Whole(render, Record(p, ""))]) }

  lemma {:induction false} RecordedIsLoaded(render: Printer, parse: Parser, f: File, done: set<string>)
    requires JsonLike(render, parse) && ValidFile(render, f) && forall q :: q in done <==> Recorded(render, f, q)
    requires !UndecodableFile(f)
    ensures LoadedFrom(render, parse, f, done)
  {
    LoadableIff(render, parse, f);
    forall q ensures q in done <==> Mentions(parse, Lines(FileText(render, f)), q) {
      LoadedIsRecorded(render, parse, f, q);
    }
  }

  lemma {:induction false} OneTear(render: Printer, piece: Piece)
    ensures History(render, [Session([], Some(piece))]) == File([], [piece])
  {
    var session := Session([], Some(piece));
    assert [session][..0] == [];
    assert AfterSession(render, File([], []), session) == File([], [] + [piece]);
  }

  lemma {:induction false} TornFileHappens(render: Printer, parse: Parser, p: string)
    requires JsonLike(render, parse) && p != ""
    ensures ValidFile(render, TornFile(render, p)) && LoadedFrom(render, parse, TornFile(render, p), {p})
    ensures TornFile(render, p) == History(render, [Session([], Some(Whole(render, Record(p, ""))))])
  {
    var f, piece := TornFile(render, p), Whole(render, Record(p, ""));
    OneTear(render, piece);
    assert render(Record(p, "")) != "" && ValidPiece(render, piece);
    forall q ensures q in {p} <==> Recorded(render, f, q) {
      assert IsRecord(render, [piece], q) <==> q == p;
    }
    RecordedIsLoaded(render, parse, f, {p});
  }

  lemma {:induction false} RemainingOfTwo(p: string, q: string, done: set<string>)
    requires q !in done
    ensures Remaining([q], done) == [q] && Remaining([p, q], done) == (if p in done then [] else [p]) + [q]
  {
    assert [p, q][1..] == [q] && [q][1..] == [];
    assert Remaining([], done) == [];
  }

  lemma {:induction false} OnlyOneAnswered(q: string)
    ensures Sequential([q], 1, [true], 1).lines == [Record(q, "")] && Sequential([q], 1, [true], 1).failed == []
  {
    assert Sequential([q], 1, [true], 0) == Start([q], 1);
  }

  /** When only the torn line records `p`, answering `q` leaves neither readable. */
  lemma {:induction false} BothAreLost(render: Printer, parse: Parser, f: File, p: string, q: string)
    returns (s: State, later: set<string>)
    requires JsonLike(render, parse) && p != "" && q != "" && p != q
    requires ValidFile(render, f) && LoadedFrom(render, parse, f, {p}) && f.open != []
    requires forall id :: !Recorded(render, f.(open := []), id)
    ensures Resumed(render, parse, f, [p, q], {p}, s, later) && StartsTorn(f, s)
    ensures s.failed == [] && p !in later && q !in later
  {
    RemainingOfTwo(p, q, {p});
    OnlyOneAnswered(q);
    s, later := RunWith(render, parse, f, [p, q], {p}, [true]);
    LaterIs(render, parse, f, [p, q], {p}, s, later, p);
    LaterIs(render, parse, f, [p, q], {p}, s, later, q);
  }

  /** Such a file comes from a crash and records its question; the next run that writes loses that answer too. */
  lemma {:induction false} TornStartHappens(render: Printer, parse: Parser, p: string, q: string)
    returns (s: State, later: set<string>)
    requires JsonLike(render, parse) && p != "" && q != "" && p != q
    ensures Resumed(render, parse, TornFile(render, p), [p, q], {p}, s, later) && StartsTorn(TornFile(render, p), s)
    ensures s.failed == [] && Remaining([p, q], {p}) == [q] && Remaining([p, q], later) == [p, q]
  {
    TornFileHappens(render, parse, p);
    s, later := BothAreLost(render, parse, TornFile(render, p), p, q);
    RemainingOfTwo(p, q, {p});
    RemainingOfTwo(p, q, later);
  }
}
