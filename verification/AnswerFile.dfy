/**
 The output file of run_enterpriserag_bench_questions.py across runs and crashes: which questions
 the next run skips, and which it asks again.
 */
module AnswerFile {
  import opened Lists
  import opened Outcomes
  import opened QuestionTasks
  import opened Text

  /** What `json.loads` makes of one stripped line. */
  datatype Parsed = Malformed | NotAnObject | Object(questionId: Option<string>)

  /** The printer and the parser are JSON's; the model takes them as parameters. */
  type Printer = Record -> string
  type Parser = string -> Parsed

  /** Stands in a text for bytes that are not UTF-8. JSON escapes this character, so no record prints it. */
  const NOT_UTF8: char := '\0'

  /** The question id one line of the file contributes, if any; a non-object line and one that is not UTF-8 raise. */
  function ReadId(parse: Parser, line: string): Result<Option<string>> {
    var stripped := Strip(line);
    if NOT_UTF8 in line then Err("UnicodeDecodeError")
    else if stripped == "" then Ok(None)
    else match parse(stripped)
      case Malformed => Ok(None)
      case NotAnObject => Err("AttributeError")
      case Object(Some(id)) => Ok(if id == "" then None else Some(id))
      case Object(None) => Ok(None)
  }

  /** What a line comes to, told from its stripped text. */
  lemma {:induction false} ReadIdIs(parse: Parser, line: string)
    ensures var text := Strip(line);
            && (ReadId(parse, line).Err? <==> NOT_UTF8 in line || (text != "" && parse(text) == NotAnObject))
            && (forall id :: ReadId(parse, line) == Ok(Some(id)) <==>
                 NOT_UTF8 !in line && text != "" && id != "" && parse(text) == Object(Some(id)))
  {}

  ghost predicate Mentions(parse: Parser, lines: seq<string>, id: string) {
    exists k :: 0 <= k < |lines| && ReadId(parse, lines[k]) == Ok(Some(id))
  }

  ghost predicate Readable(parse: Parser, lines: seq<string>) {
    forall k | 0 <= k < |lines| :: ReadId(parse, lines[k]).Ok?
  }

  method ScanLines(parse: Parser, lines: seq<string>) returns (r: Result<set<string>>)
    ensures r.Ok? <==> Readable(parse, lines)
    ensures r.Ok? ==> forall id :: id in r.value <==> Mentions(parse, lines, id)
  {
    var completed: set<string> := {};
    for k := 0 to |lines|
      invariant Readable(parse, lines[..k])
      invariant forall id :: id in completed <==> Mentions(parse, lines[..k], id)
    {
      var found := ReadId(parse, lines[k]);
      assert lines[..k + 1] == lines[..k] + [lines[k]];
      MentionsSnoc(parse, lines[..k], lines[k]);
      if found.Err? {
        return Err(found.message);
      }
      if found.value.Some? {
        completed := completed + {found.value.value};
      }
    }
    assert lines[..|lines|] == lines;
    r := Ok(completed);
  }

  lemma {:induction false} MentionsSnoc(parse: Parser, lines: seq<string>, line: string)
    ensures Readable(parse, lines + [line]) <==> Readable(parse, lines) && ReadId(parse, line).Ok?
    ensures forall id :: Mentions(parse, lines + [line], id) <==>
              Mentions(parse, lines, id) || ReadId(parse, line) == Ok(Some(id))
  {
    var all := lines + [line];
    assert all[|lines|] == line;
    assert forall k | 0 <= k < |lines| :: all[k] == lines[k];
    forall id | Mentions(parse, lines, id)
      ensures Mentions(parse, all, id)
    {
      var k :| 0 <= k < |lines| && ReadId(parse, lines[k]) == Ok(Some(id));
      assert ReadId(parse, all[k]) == Ok(Some(id));
    }
  }

  /** A missing file counts as empty; otherwise every line is looked at. */
  method LoadCompletedQuestionIds(parse: Parser, file: Option<string>) returns (r: Result<set<string>>)
    ensures file.None? ==> r == Ok({})
    ensures file.Some? ==> (r.Ok? <==> Readable(parse, Lines(file.value)))
    ensures file.Some? && r.Ok? ==> forall id :: id in r.value <==> Mentions(parse, Lines(file.value), id)
  {
    if file.None? { return Ok({}); }
    r := ScanLines(parse, Lines(file.value));
  }

  /** The questions `main` still has to ask, in their order. */
  function Remaining(questions: seq<string>, done: set<string>): (r: seq<string>)
    ensures forall q :: q in r <==> q in questions && q !in done
  {
    if questions == [] then []
    else
      var rest := Remaining(questions[1..], done);
      if questions[0] in done then rest else [questions[0]] + rest
  }

  lemma {:induction false} RemainingSnoc(questions: seq<string>, q: string, done: set<string>)
    ensures Remaining(questions + [q], done) == Remaining(questions, done) + (if q in done then [] else [q])
  {
    if questions == [] {
      assert [q][1..] == [];
    } else {
      RemainingSnoc(questions[1..], q, done);
      assert (questions + [q])[1..] == questions[1..] + [q];
    }
  }

  /** Questions that are done are left out; the others keep their order and number. */
  lemma {:induction false} RemainingPicks(questions: seq<string>, done: set<string>)
    ensures PicksOut(questions, Remaining(questions, done), q => q !in done)
  {
    if questions != [] {
      RemainingPicks(questions[1..], done);
      assert questions[0] !in done ==> Remaining(questions, done)[1..] == Remaining(questions[1..], done);
    }
  }

  method PlanRun(questions: seq<string>, maxQuestions: Option<int>, done: set<string>)
    returns (r: Result<(seq<string>, nat)>)
    ensures r.Err? <==> maxQuestions.Some? && maxQuestions.value < 1
    ensures r.Ok? ==>
              var considered := if maxQuestions.Some? && maxQuestions.value < |questions|
                                then questions[..maxQuestions.value] else questions;
              && r.value.0 == Remaining(considered, done)
              && r.value.1 + |r.value.0| == |considered|
  {
    var considered := questions;
    if maxQuestions.Some? {
      if maxQuestions.value < 1 { return Err("`--max-questions` must be at least 1 when provided."); }
      if maxQuestions.value < |questions| { considered := questions[..maxQuestions.value]; }
    }
    var work: seq<string> := [];
    for k := 0 to |considered|
      invariant work == Remaining(considered[..k], done)
      invariant |work| <= k
    {
      RemainingSnoc(considered[..k], considered[k], done);
      assert considered[..k + 1] == considered[..k] + [considered[k]];
      if considered[k] !in done { work := work + [considered[k]]; }
    }
    assert considered[..|considered|] == considered;
    r := Ok((work, |considered| - |work|));
  }

  // ---------------------------------------------------------------- the file, written piece by piece

  /**
   The first `cut` characters of a record, and if `half` some bytes of the next: all of it unless a crash tore
   the line.
   */
  datatype Piece = Piece(record: Record, cut: nat, half: bool)

  /** Lines that got their newline, and the text after the last newline. */
  datatype File = File(closed: seq<seq<Piece>>, open: seq<Piece>)

  ghost predicate ValidPiece(render: Printer, p: Piece) {
    p.record.questionId != "" && 0 < p.cut <= |render(p.record)| && (p.half ==> p.cut < |render(p.record)|)
  }

  ghost predicate ValidPieces(render: Printer, ps: seq<Piece>) {
    forall p | p in ps :: ValidPiece(render, p)
  }

  ghost predicate ValidFile(render: Printer, f: File) {
    && ValidPieces(render, f.open)
    && (forall k | 0 <= k < |f.closed| :: ValidPieces(render, f.closed[k]))
  }

  ghost function PieceText(render: Printer, p: Piece): string
    requires ValidPiece(render, p)
  {
    render(p.record)[..p.cut] + if p.half then [NOT_UTF8] else ""
  }

  /** A write on this line was torn inside a character. */
  predicate Undecodable(ps: seq<Piece>) { exists p :: p in ps && p.half }

  predicate UndecodableFile(f: File) {
    Undecodable(f.open) || exists k :: 0 <= k < |f.closed| && Undecodable(f.closed[k])
  }

  ghost function LineText(render: Printer, ps: seq<Piece>): string
    requires ValidPieces(render, ps)
  {
    if ps == [] then "" else LineText(render, ps[..|ps| - 1]) + PieceText(render, ps[|ps| - 1])
  }

  /** A line that is exactly one complete record of question `id`. */
  ghost predicate IsRecord(render: Printer, ps: seq<Piece>, id: string) {
    |ps| == 1 && ps[0].cut == |render(ps[0].record)| && ps[0].record.questionId == id
  }

  /** A line made of several records, or of part of one. */
  ghost predicate Damaged(render: Printer, ps: seq<Piece>) {
    |ps| >= 2 || (|ps| == 1 && ps[0].cut < |render(ps[0].record)|)
  }

  /**
   What the model needs of JSON: a record prints to one trimmed line that parses back to its id,
   it has no control character, and neither a proper beginning of an object nor objects run together on
   a line parse at all.
   */
  ghost predicate JsonLike(render: Printer, parse: Parser) {
    && (forall r: Record :: render(r) != "" && Trimmed(render(r)) && '\n' !in render(r) && NOT_UTF8 !in render(r))
    && (forall r: Record :: parse(render(r)) == Object(Some(r.questionId)))
    && (forall ps: seq<Piece> :: ValidPieces(render, ps) && Damaged(render, ps) && !Undecodable(ps)
          ==> parse(Strip(LineText(render, ps))) == Malformed)
  }

  ghost function LineTexts(render: Printer, lines: seq<seq<Piece>>): (r: seq<string>)
    requires forall k | 0 <= k < |lines| :: ValidPieces(render, lines[k])
    ensures |r| == |lines| && forall k | 0 <= k < |r| :: r[k] == LineText(render, lines[k])
  {
    seq(|lines|, k requires 0 <= k < |lines| => LineText(render, lines[k]))
  }

  /** The characters of the file. */
  ghost function FileText(render: Printer, f: File): string
    requires ValidFile(render, f)
  {
    Join(LineTexts(render, f.closed) + [LineText(render, f.open)], '\n')
  }

  /** Some line of the file is exactly a complete record of `id`. */
  ghost predicate Recorded(render: Printer, f: File, id: string) {
    SomeRecord(render, f.closed, id) || IsRecord(render, f.open, id)
  }

  lemma {:induction false} LineTextHasNoNewline(render: Printer, parse: Parser, ps: seq<Piece>)
    requires JsonLike(render, parse) && ValidPieces(render, ps)
    ensures '\n' !in LineText(render, ps)
  {
    if ps != [] {
      LineTextHasNoNewline(render, parse, ps[..|ps| - 1]);
      var last := ps[|ps| - 1].record;
      assert '\n' !in render(last);
    }
  }

  lemma {:induction false} LineTextEmpty(render: Printer, ps: seq<Piece>)
    requires ValidPieces(render, ps)
    ensures LineText(render, ps) == "" <==> ps == []
  {
    if ps != [] {
      assert ValidPiece(render, ps[|ps| - 1]);
    }
  }

  lemma {:induction false} PieceIsDecodable(render: Printer, p: Piece)
    requires ValidPiece(render, p) && NOT_UTF8 !in render(p.record)
    ensures NOT_UTF8 in PieceText(render, p) <==> p.half
  {
    assert p.half ==> PieceText(render, p)[p.cut] == NOT_UTF8;
  }

  lemma {:induction false} UndecodableSnoc(ps: seq<Piece>, p: Piece)
    ensures Undecodable(ps + [p]) <==> Undecodable(ps) || p.half
  {
    assert p in ps + [p] && forall q | q in ps :: q in ps + [p];
  }

  lemma {:induction false} UndecodableLast(ps: seq<Piece>)
    requires ps != []
    ensures Undecodable(ps) <==> Undecodable(ps[..|ps| - 1]) || ps[|ps| - 1].half
  {
    UndecodableSnoc(ps[..|ps| - 1], ps[|ps| - 1]);
    assert ps == ps[..|ps| - 1] + [ps[|ps| - 1]];
  }

  lemma {:induction false} InEither(s: string, t: string)
    ensures NOT_UTF8 in s + t <==> NOT_UTF8 in s || NOT_UTF8 in t
  {}

  /** Only a character torn in two leaves text that does not decode. */
  lemma {:induction false} LineIsDecodable(render: Printer, parse: Parser, ps: seq<Piece>)
    requires JsonLike(render, parse) && ValidPieces(render, ps)
    ensures NOT_UTF8 in LineText(render, ps) <==> Undecodable(ps)
  {
    if ps != [] {
      var n := |ps| - 1;
      LineIsDecodable(render, parse, ps[..n]);
      PieceIsDecodable(render, ps[n]);
      UndecodableLast(ps);
      InEither(LineText(render, ps[..n]), PieceText(render, ps[n]));
    }
  }

  /** The id a line contributes is that of the record it consists of; any other line is passed over, or raises. */
  lemma {:induction false} ReadLine(render: Printer, parse: Parser, ps: seq<Piece>, id: string)
    requires JsonLike(render, parse) && ValidPieces(render, ps)
    ensures ReadId(parse, LineText(render, ps)).Ok? <==> !Undecodable(ps)
    ensures ReadId(parse, LineText(render, ps)) == Ok(Some(id)) <==> IsRecord(render, ps, id)
  {
    LineIsDecodable(render, parse, ps);
    if ps == [] || Undecodable(ps) {
    } else if !Damaged(render, ps) {
      var r := ps[0].record;
      assert ps[0] in ps;
      assert LineText(render, ps[..0]) == "";
      assert LineText(render, ps) == render(r)[..|render(r)|] == render(r);
      assert Strip(render(r)) == render(r) != "";
    }
  }

  /** Reading the file back raises exactly when a write was torn inside a character. */
  lemma {:induction false} LoadableIff(render: Printer, parse: Parser, f: File)
    requires JsonLike(render, parse) && ValidFile(render, f)
    ensures Readable(parse, Lines(FileText(render, f))) <==> !UndecodableFile(f)
  {
    var texts := LineTexts(render, f.closed);
    var lines := Lines(FileText(render, f));
    LinesOfFile(render, parse, f);
    forall k | 0 <= k < |texts|
      ensures ReadId(parse, lines[k]).Ok? <==> !Undecodable(f.closed[k])
    {
      ReadLine(render, parse, f.closed[k], "");
      assert lines[k] == texts[k];
    }
    ReadLine(render, parse, f.open, "");
    assert f.open != [] ==> lines[|texts|] == LineText(render, f.open);
  }

  /** It gives exactly the questions with a complete record alone on a line. */
  lemma {:induction false} LoadedIsRecorded(render: Printer, parse: Parser, f: File, id: string)
    requires JsonLike(render, parse) && ValidFile(render, f)
    ensures Mentions(parse, Lines(FileText(render, f)), id) <==> Recorded(render, f, id)
  {
    var texts := LineTexts(render, f.closed);
    var lines := Lines(FileText(render, f));
    LinesOfFile(render, parse, f);
    forall k | 0 <= k < |texts|
      ensures ReadId(parse, lines[k]) == Ok(Some(id)) <==> IsRecord(render, f.closed[k], id)
    {
      ReadLine(render, parse, f.closed[k], id);
      assert lines[k] == texts[k];
    }
    ReadLine(render, parse, f.open, id);
    if k :| 0 <= k < |f.closed| && IsRecord(render, f.closed[k], id) {
      assert ReadId(parse, lines[k]) == Ok(Some(id));
    }
    if IsRecord(render, f.open, id) {
      assert lines[|texts|] == LineText(render, f.open);
    }
  }

  lemma {:induction false} LinesOfFile(render: Printer, parse: Parser, f: File)
    requires JsonLike(render, parse) && ValidFile(render, f)
    ensures Lines(FileText(render, f))
         == LineTexts(render, f.closed) + (if f.open == [] then [] else [LineText(render, f.open)])
  {
    var texts := LineTexts(render, f.closed);
    var parts := texts + [LineText(render, f.open)];
    forall p | p in parts
      ensures '\n' !in p
    {
      if k :| 0 <= k < |texts| && p == texts[k] {
        LineTextHasNoNewline(render, parse, f.closed[k]);
      } else {
        LineTextHasNoNewline(render, parse, f.open);
      }
    }
    SplitJoin(parts, '\n');
    LineTextEmpty(render, f.open);
    assert parts[..|parts| - 1] == texts;
  }

  // ---------------------------------------------------------------- runs and crashes

  ghost function Whole(render: Printer, r: Record): Piece { Piece(r, |render(r)|, false) }

  /** Writing one record and its newline. */
  ghost function Append(render: Printer, f: File, r: Record): File {
    File(f.closed + [f.open + [Whole(render, r)]], [])
  }

  ghost function AppendAll(render: Printer, f: File, rs: seq<Record>): File {
    if rs == [] then f else Append(render, AppendAll(render, f, rs[..|rs| - 1]), rs[|rs| - 1])
  }

  /** A crash in the middle of a write leaves the beginning of a record. */
  ghost function Tear(f: File, p: Piece): File {
    f.(open := f.open + [p])
  }

  lemma {:induction false} AppendText(render: Printer, parse: Parser, f: File, r: Record)
    requires JsonLike(render, parse) && ValidFile(render, f) && r.questionId != ""
    ensures ValidFile(render, Append(render, f, r))
    ensures FileText(render, Append(render, f, r)) == FileText(render, f) + render(r) + "\n"
  {
    var texts := LineTexts(render, f.closed);
    var line := f.open + [Whole(render, r)];
    assert render(r) != "";
    assert LineText(render, line) == LineText(render, f.open) + render(r) by {
      assert line[..|line| - 1] == f.open;
    }
    assert LineTexts(render, f.closed + [line]) == texts + [LineText(render, line)];
    JoinSnoc(texts + [LineText(render, line)], "", '\n');
    JoinExtendLast(texts, LineText(render, f.open), render(r), '\n');
  }

  lemma {:induction false} TearText(render: Printer, f: File, p: Piece)
    requires ValidFile(render, f) && ValidPiece(render, p)
    ensures ValidFile(render, Tear(f, p))
    ensures FileText(render, Tear(f, p)) == FileText(render, f) + PieceText(render, p)
  {
    assert (f.open + [p])[..|f.open|] == f.open;
    JoinExtendLast(LineTexts(render, f.closed), LineText(render, f.open), PieceText(render, p), '\n');
  }

  /** One run: the records it wrote, and the piece it was writing when it crashed, if it did. */
  datatype Session = Session(records: seq<Record>, torn: Option<Piece>)

  ghost predicate ValidSession(render: Printer, s: Session) {
    && (forall r | r in s.records :: r.questionId != "")
    && (s.torn.Some? ==> ValidPiece(render, s.torn.value))
  }

  ghost function AfterSession(render: Printer, f: File, s: Session): File {
    var g := AppendAll(render, f, s.records);
    if s.torn.Some? then Tear(g, s.torn.value) else g
  }

  ghost function History(render: Printer, sessions: seq<Session>): File {
    if sessions == [] then File([], [])
    else AfterSession(render, History(render, sessions[..|sessions| - 1]), sessions[|sessions| - 1])
  }

  /** The lines a run adds: the first one starts with whatever a crash left behind. */
  ghost function NewLines(render: Printer, open: seq<Piece>, rs: seq<Record>): (r: seq<seq<Piece>>)
    ensures |r| == |rs|
  {
    seq(|rs|, k requires 0 <= k < |rs| => (if k == 0 then open else []) + [Whole(render, rs[k])])
  }

  lemma {:induction false} AppendAllShape(render: Printer, f: File, rs: seq<Record>)
    ensures AppendAll(render, f, rs)
         == File(f.closed + NewLines(render, f.open, rs), if rs == [] then f.open else [])
  {
    if rs == [] {
      assert f.closed + NewLines(render, f.open, rs) == f.closed;
    } else {
      var last := |rs| - 1;
      AppendAllShape(render, f, rs[..last]);
      assert NewLines(render, f.open, rs)
          == NewLines(render, f.open, rs[..last]) + [(if last == 0 then f.open else []) + [Whole(render, rs[last])]];
    }
  }

  lemma {:induction false} AppendAllValid(render: Printer, parse: Parser, f: File, rs: seq<Record>)
    requires JsonLike(render, parse) && ValidFile(render, f)
    requires forall r | r in rs :: r.questionId != ""
    ensures ValidFile(render, AppendAll(render, f, rs))
  {
    if rs != [] {
      AppendAllValid(render, parse, f, rs[..|rs| - 1]);
      AppendText(render, parse, AppendAll(render, f, rs[..|rs| - 1]), rs[|rs| - 1]);
    }
  }

  /** A line a run adds is a complete record exactly when nothing torn precedes it. */
  lemma {:induction false} NewLineIsRecord(render: Printer, parse: Parser, open: seq<Piece>, rs: seq<Record>, k: nat,
                                           id: string)
    requires JsonLike(render, parse) && k < |rs|
    ensures IsRecord(render, NewLines(render, open, rs)[k], id)
            <==> rs[k].questionId == id && (k > 0 || open == [])
  {
    var line := NewLines(render, open, rs)[k];
    if k > 0 || open == [] { assert line == [Whole(render, rs[k])]; }
  }

  ghost predicate SomeRecord(render: Printer, lines: seq<seq<Piece>>, id: string) {
    exists k :: 0 <= k < |lines| && IsRecord(render, lines[k], id)
  }

  lemma {:induction false} RecordedInClosed(render: Printer, a: seq<seq<Piece>>, b: seq<seq<Piece>>, id: string)
    ensures SomeRecord(render, a + b, id) <==> SomeRecord(render, a, id) || SomeRecord(render, b, id)
  {
    if k :| 0 <= k < |a| && IsRecord(render, a[k], id) { assert (a + b)[k] == a[k]; }
    if k :| 0 <= k < |b| && IsRecord(render, b[k], id) { assert (a + b)[|a| + k] == b[k]; }
    if k :| 0 <= k < |a + b| && IsRecord(render, (a + b)[k], id) {
      if k >= |a| { assert (a + b)[k] == b[k - |a|]; } else { assert (a + b)[k] == a[k]; }
    }
  }

  /** What a run that ended cleanly adds: everything it wrote, unless it began on a torn line. */
  lemma {:induction false} CleanRunRecords(render: Printer, parse: Parser, f: File, rs: seq<Record>, id: string)
    requires JsonLike(render, parse) && ValidFile(render, f)
    ensures Recorded(render, AppendAll(render, f, rs), id) <==>
              if f.open == [] || rs == [] then
                Recorded(render, f, id) || id in LineIds(rs)
              else
                Recorded(render, f.(open := []), id) || id in LineIds(rs[1..])
  {
    AppendAllShape(render, f, rs);
    var added := NewLines(render, f.open, rs);
    RecordedInClosed(render, f.closed, added, id);
    forall k | 0 <= k < |rs|
      ensures IsRecord(render, added[k], id) <==> rs[k].questionId == id && (k > 0 || f.open == [])
    {
      NewLineIsRecord(render, parse, f.open, rs, k, id);
    }
    if f.open == [] {
      if id in LineIds(rs) {
        var k :| 0 <= k < |rs| && LineIds(rs)[k] == id;
        assert IsRecord(render, added[k], id);
      }
      if k :| 0 <= k < |rs| && IsRecord(render, added[k], id) {
        assert LineIds(rs)[k] == id;
      }
    } else if rs != [] {
      if id in LineIds(rs[1..]) {
        var k :| 0 <= k < |rs| - 1 && LineIds(rs[1..])[k] == id;
        assert IsRecord(render, added[k + 1], id);
      }
      if k :| 0 <= k < |rs| && IsRecord(render, added[k], id) {
        assert LineIds(rs[1..])[k - 1] == id;
      }
    }
  }

  /** Some run wrote the complete record of `id`. */
  ghost predicate Wrote(render: Printer, sessions: seq<Session>, id: string) {
    exists k :: 0 <= k < |sessions| &&
      (id in LineIds(sessions[k].records) || (sessions[k].torn.Some? && IsRecord(render, [sessions[k].torn.value], id)))
  }

  /**
   Whatever the runs and crashes so far, a question is skipped only if one of them wrote its
   complete record.
   */
  lemma {:induction false} HistoryIsSound(render: Printer, parse: Parser, sessions: seq<Session>, id: string)
    requires JsonLike(render, parse)
    requires forall k | 0 <= k < |sessions| :: ValidSession(render, sessions[k])
    ensures ValidFile(render, History(render, sessions))
    ensures Recorded(render, History(render, sessions), id) ==> Wrote(render, sessions, id)
  {
    if sessions != [] {
      var last := |sessions| - 1;
      var s := sessions[last];
      HistoryIsSound(render, parse, sessions[..last], id);
      var f := History(render, sessions[..last]);
      AppendAllValid(render, parse, f, s.records);
      if s.torn.Some? { TearText(render, AppendAll(render, f, s.records), s.torn.value); }
      if Recorded(render, f, id) {
        var k :| 0 <= k < last &&
          (id in LineIds(sessions[..last][k].records)
           || (sessions[..last][k].torn.Some? && IsRecord(render, [sessions[..last][k].torn.value], id)));
        assert sessions[..last][k] == sessions[k];
      } else if Recorded(render, History(render, sessions), id) {
        SessionSource(render, parse, f, s, id);
      }
    }
  }

  lemma {:induction false} SessionSource(render: Printer, parse: Parser, f: File, s: Session, id: string)
    requires JsonLike(render, parse) && ValidFile(render, f) && ValidSession(render, s)
    requires Recorded(render, AfterSession(render, f, s), id) && !Recorded(render, f, id)
    ensures id in LineIds(s.records) || (s.torn.Some? && IsRecord(render, [s.torn.value], id))
  {
    CleanRunRecords(render, parse, f, s.records, id);
    AppendAllShape(render, f, s.records);
    var g := AppendAll(render, f, s.records);
    if Recorded(render, g, id) {
      if s.records != [] {
        assert LineIds(s.records[1..]) == LineIds(s.records)[1..];
      }
    } else {
      assert IsRecord(render, g.open + [s.torn.value], id);
    }
  }

  /** A record that got its newline on a line of its own survives every later run and crash. */
  lemma {:induction false} ClosedLinesSurvive(render: Printer, sessions: seq<Session>, n: nat)
    requires n <= |sessions|
    ensures History(render, sessions[..n]).closed <= History(render, sessions).closed
  {
    if n == |sessions| {
      assert sessions[..n] == sessions;
    } else {
      var last := |sessions| - 1;
      ClosedLinesSurvive(render, sessions[..last], n);
      assert sessions[..last][..n] == sessions[..n];
      AppendAllShape(render, History(render, sessions[..last]), sessions[last].records);
    }
  }

  lemma {:induction false} UndecodableStays(render: Printer, f: File, rs: seq<Record>)
    ensures UndecodableFile(AppendAll(render, f, rs)) <==> UndecodableFile(f)
  {
    AppendAllShape(render, f, rs);
    var added, g := NewLines(render, f.open, rs), AppendAll(render, f, rs);
    forall k | 0 <= k < |rs|
      ensures Undecodable(added[k]) <==> k == 0 && Undecodable(f.open)
    {
      UndecodableSnoc(if k == 0 then f.open else [], Whole(render, rs[k]));
    }
    assert forall k | 0 <= k < |f.closed| :: g.closed[k] == f.closed[k];
    assert forall k | 0 <= k < |rs| :: g.closed[|f.closed| + k] == added[k];
    if rs != [] && Undecodable(f.open) { assert Undecodable(g.closed[|f.closed|]); }
    if UndecodableFile(g) && rs != [] {
      var k :| 0 <= k < |g.closed| && Undecodable(g.closed[k]);
      assert k >= |f.closed| ==> Undecodable(added[k - |f.closed|]);
    }
  }

  /** The loader raises on a file exactly when some crash in its history tore a character in two. */
  lemma {:induction false} TornCharacterIff(render: Printer, parse: Parser, sessions: seq<Session>)
    requires JsonLike(render, parse)
    requires forall k | 0 <= k < |sessions| :: ValidSession(render, sessions[k])
    ensures ValidFile(render, History(render, sessions))
    ensures Readable(parse, Lines(FileText(render, History(render, sessions)))) <==>
              forall k | 0 <= k < |sessions| :: !TearsCharacter(sessions[k])
  {
    HistoryIsSound(render, parse, sessions, "");
    TornSomewhere(render, sessions);
    LoadableIff(render, parse, History(render, sessions));
  }

  predicate TearsCharacter(s: Session) { s.torn.Some? && s.torn.value.half }

  lemma {:induction false} TornSomewhere(render: Printer, sessions: seq<Session>)
    ensures UndecodableFile(History(render, sessions)) <==>
              exists k :: 0 <= k < |sessions| && TearsCharacter(sessions[k])
  {
    if sessions != [] {
      var last := |sessions| - 1;
      var before, s := sessions[..last], sessions[last];
      TornSomewhere(render, before);
      UndecodableStays(render, History(render, before), s.records);
      if s.torn.Some? { UndecodableSnoc(AppendAll(render, History(render, before), s.records).open, s.torn.value); }
      assert forall k | 0 <= k < last :: before[k] == sessions[k];
    }
  }
}
