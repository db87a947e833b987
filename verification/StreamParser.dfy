/**
 The incremental analyser of the chat stream (loadtest/onyx_client/stream_parser.py), fed one line
 at a time, and what its summary says about the lines seen so far.
 */
module StreamParser {
  import opened Counting
  import opened Outcomes

  datatype Milestone = FirstPacket | FirstSearchDoc | FirstAnswerToken | FirstDrPlan | FirstResearchAgent

  /** The text of a true JSON value: never empty. */
  type Words = s: string | s != "" witness "x"

  /** A field that is asked for its length: false values count as empty, numbers have none. */
  datatype Field = Empty | Sized(more: nat) | Unsized

  /** What `type` says; a missing one, or any string the analyser does not look for, is Other. */
  datatype Kind =
    | ErrorPacket | Heartbeat | MessageStart | MessageDelta | DocumentsDelta | PlanStart | AgentStart | Stop | Other

  /** The `obj` of a packet. */
  datatype Object = Object(kind: Kind, error: Option<Words>, content: Field, documents: Field)

  /**
   A line as the analyser sees it. `reserved` is None when the id is missing or not an integer
   (Python counts the booleans among the integers).
   */
  datatype Line =
    | Blank
    | Garbage(text: string)
    | NotObject
    | Packet(reserved: Option<int>, error: Option<Words>, obj: Option<Object>)

  datatype Summary = Summary(
    packets: nat,
    heartbeats: nat,
    chars: nat,
    docs: nat,
    sawStart: bool,
    sawStop: bool,
    error: Option<Problem>,
    marked: set<Milestone>,
    reserved: Option<int>)

  const BLANK_SUMMARY := Summary(0, 0, 0, 0, false, false, None, {}, None)

  function Size(f: Field): nat { if f.Sized? then f.more + 1 else 0 }

  /** What the error field can hold: a text from the stream, the start of a bad line, or a stock text. */
  datatype Problem = Named(text: Words) | UnparseableLine(start: string) | UnnamedError

  function Shown(p: Problem): (r: string)
    ensures r != ""
  {
    match p
    case Named(text) => text
    case UnparseableLine(start) => "unparseable stream line: " + start
    case UnnamedError => "streaming error packet"
  }

  function Unparseable(text: string): Problem {
    UnparseableLine(if |text| <= 200 then text else text[..200])
  }

  function Problems(error: Option<Words>): Option<Problem> {
    if error.Some? then Some(Named(error.value)) else None
  }

  // ---------------------------------------------------------------- one line

  /** The summary after a line, the milestones it newly hit, and whether an exception left `feed`. */
  datatype Fed = Fed(summary: Summary, hit: seq<Milestone>, raised: bool)

  function Marked(f: Fed, m: Milestone): Fed {
    if m in f.summary.marked then f
    else f.(summary := f.summary.(marked := f.summary.marked + {m}), hit := f.hit + [m])
  }

  function Answered(f: Fed, content: Field): Fed {
    if content.Unsized? then f.(raised := true)
    else
      var counted := f.(summary := f.summary.(chars := f.summary.chars + Size(content)));
      if content.Sized? then Marked(counted, FirstAnswerToken) else counted
  }

  function Dispatched(f: Fed, o: Object): Fed {
    var s := f.summary;
    if o.kind == ErrorPacket || o.error.Some? then
      f.(summary := s.(error := if o.error.Some? then Problems(o.error) else Some(UnnamedError)))
    else if o.kind == Heartbeat then f.(summary := s.(heartbeats := s.heartbeats + 1))
    else if o.kind == MessageStart then Answered(f.(summary := s.(sawStart := true)), o.content)
    else if o.kind == MessageDelta then Answered(f, o.content)
    else if o.kind == DocumentsDelta then
      if o.documents.Unsized? then f.(raised := true)
      else
        var counted := f.(summary := s.(docs := s.docs + Size(o.documents)));
        if o.documents.Sized? then Marked(counted, FirstSearchDoc) else counted
    else if o.kind == PlanStart then Marked(f, FirstDrPlan)
    else if o.kind == AgentStart then Marked(f, FirstResearchAgent)
    else if o.kind == Stop then f.(summary := s.(sawStop := true))
    else f
  }

  /** What every line that is not blank does first. */
  function Begun(s: Summary): Fed { Marked(Fed(s.(packets := s.packets + 1), [], false), FirstPacket) }

  function Identified(f: Fed, reserved: Option<int>): Fed {
    if reserved.Some? then f.(summary := f.summary.(reserved := reserved)) else f
  }

  /** The rest of `feed`, once the line has been counted. */
  function Continued(f: Fed, line: Line): Fed {
    match line
    case Packet(reserved, error, obj) =>
      var g := Identified(f, reserved);
      if error.Some? then g.(summary := g.summary.(error := Problems(error)))
      else if obj.None? then g
      else Dispatched(g, obj.value)
    case Garbage(text) => f.(summary := f.summary.(error := Some(Unparseable(text))))
    case _ => f
  }

  /** `feed`, as a function of the summary before. */
  function FedLine(s: Summary, line: Line): Fed {
    if line.Blank? then Fed(s, [], false) else Continued(Begun(s), line)
  }

  // ---------------------------------------------------------------- a whole stream

  function SummaryOf(lines: seq<Line>): Summary {
    if lines == [] then BLANK_SUMMARY else FedLine(SummaryOf(lines[..|lines| - 1]), lines[|lines| - 1]).summary
  }

  /** All milestones returned by the calls so far; a call that raises returns none. */
  function Returned(lines: seq<Line>): seq<Milestone> {
    if lines == [] then []
    else
      var f := FedLine(SummaryOf(lines[..|lines| - 1]), lines[|lines| - 1]);
      Returned(lines[..|lines| - 1]) + (if f.raised then [] else f.hit)
  }

  /** The hits so far are new, pairwise different, and all that was added to the marks. */
  ghost predicate HitsAreNew(before: set<Milestone>, f: Fed) {
    && Distinct(f.hit)
    && (forall m | m in f.hit :: m !in before)
    && (forall m :: m in f.summary.marked <==> m in before || m in f.hit)
  }

  lemma {:induction false} MarkedHitsAreNew(before: set<Milestone>, f: Fed, m: Milestone)
    requires HitsAreNew(before, f)
    ensures HitsAreNew(before, Marked(f, m))
  {
    var g := Marked(f, m);
    assert forall x :: x in g.hit <==> x in f.hit || (x == m && m !in f.summary.marked);
  }

  lemma {:induction false} AnsweredHitsAreNew(before: set<Milestone>, f: Fed, content: Field)
    requires HitsAreNew(before, f)
    ensures HitsAreNew(before, Answered(f, content))
  {
    MarkedHitsAreNew(before, f.(summary := f.summary.(chars := f.summary.chars + Size(content))), FirstAnswerToken);
  }

  lemma {:induction false} DispatchedHitsAreNew(before: set<Milestone>, f: Fed, o: Object)
    requires HitsAreNew(before, f)
    ensures HitsAreNew(before, Dispatched(f, o))
  {
    var s := f.summary;
    if !(o.kind == ErrorPacket || o.error.Some?) {
      match o.kind {
        case MessageStart => AnsweredHitsAreNew(before, f.(summary := s.(sawStart := true)), o.content);
        case MessageDelta => AnsweredHitsAreNew(before, f, o.content);
        case DocumentsDelta =>
          MarkedHitsAreNew(before, f.(summary := s.(docs := s.docs + Size(o.documents))), FirstSearchDoc);
        case PlanStart => MarkedHitsAreNew(before, f, FirstDrPlan);
        case AgentStart => MarkedHitsAreNew(before, f, FirstResearchAgent);
        case _ =>
      }
    }
  }

  lemma {:induction false} ContinuedHitsAreNew(before: set<Milestone>, f: Fed, line: Line)
    requires HitsAreNew(before, f)
    ensures HitsAreNew(before, Continued(f, line))
  {
    if line.Packet? {
      var g := Identified(f, line.reserved);
      assert HitsAreNew(before, g);
      if line.error.None? && line.obj.Some? {
        DispatchedHitsAreNew(before, g, line.obj.value);
      }
    }
  }

  lemma {:induction false} OneLineHits(s: Summary, line: Line)
    ensures HitsAreNew(s.marked, FedLine(s, line))
  {
    MarkedHitsAreNew(s.marked, Fed(s.(packets := s.packets + 1), [], false), FirstPacket);
    ContinuedHitsAreNew(s.marked, Begun(s), line);
  }

  lemma {:induction false} ReturnedGrows(before: set<Milestone>, returned: seq<Milestone>, f: Fed)
    requires HitsAreNew(before, f)
    requires Distinct(returned) && forall m | m in returned :: m in before
    ensures Distinct(returned + f.hit)
    ensures forall m | m in returned + f.hit :: m in f.summary.marked
    ensures (forall m | m in before :: m in returned) ==> forall m | m in f.summary.marked :: m in returned + f.hit
  {
    var all := returned + f.hit;
    forall i, j | 0 <= i < j < |all| ensures all[i] != all[j] {
      if i < |returned| <= j {
        assert returned[i] in returned && f.hit[j - |returned|] in f.hit;
      }
    }
  }

  /**
   Over any stream a milestone is returned at most once; when no line makes `feed` raise, the
   milestones returned are exactly the ones marked.
   */
  lemma {:induction false} MilestonesReturnedOnce(lines: seq<Line>)
    ensures Distinct(Returned(lines))
    ensures forall m | m in Returned(lines) :: m in SummaryOf(lines).marked
    ensures (forall i | 0 <= i < |lines| :: !FedLine(SummaryOf(lines[..i]), lines[i]).raised) ==>
              forall m | m in SummaryOf(lines).marked :: m in Returned(lines)
  {
    if lines != [] {
      var n := |lines| - 1;
      MilestonesReturnedOnce(lines[..n]);
      var f := FedLine(SummaryOf(lines[..n]), lines[n]);
      OneLineHits(SummaryOf(lines[..n]), lines[n]);
      ReturnedGrows(SummaryOf(lines[..n]).marked, Returned(lines[..n]), f);
      assert forall i | 0 <= i < n :: lines[..n][..i] == lines[..i];
      if forall i | 0 <= i < |lines| :: !FedLine(SummaryOf(lines[..i]), lines[i]).raised {
        assert forall i | 0 <= i < n :: !FedLine(SummaryOf(lines[..n][..i]), lines[..n][i]).raised;
      }
    }
  }

  // ---------------------------------------------------------------- what the summary means

  /** The error a line reports, if any. */
  function ErrorIn(line: Line): Option<Problem> {
    match line
    case Garbage(text) => Some(Unparseable(text))
    case Packet(_, error, obj) =>
      if error.Some? then Problems(error)
      else if obj.None? then None
      else if obj.value.error.Some? then Problems(obj.value.error)
      else if obj.value.kind == ErrorPacket then Some(UnnamedError)
      else None
    case _ => None
  }

  /** The line is a sound packet of the given kind. */
  predicate IsA(line: Line, kind: Kind) {
    line.Packet? && ErrorIn(line).None? && line.obj.Some? && line.obj.value.kind == kind
  }

  function CharsIn(line: Line): nat {
    if IsA(line, MessageStart) || IsA(line, MessageDelta) then Size(line.obj.value.content) else 0
  }

  function DocsIn(line: Line): nat {
    if IsA(line, DocumentsDelta) then Size(line.obj.value.documents) else 0
  }

  function TotalChars(lines: seq<Line>): nat {
    if lines == [] then 0 else TotalChars(lines[..|lines| - 1]) + CharsIn(lines[|lines| - 1])
  }

  function TotalDocs(lines: seq<Line>): nat {
    if lines == [] then 0 else TotalDocs(lines[..|lines| - 1]) + DocsIn(lines[|lines| - 1])
  }

  predicate SomeLineIs(lines: seq<Line>, kind: Kind) {
    exists i | 0 <= i < |lines| :: IsA(lines[i], kind)
  }

  function LastError(lines: seq<Line>): Option<Problem> {
    if lines == [] then None
    else
      var e := ErrorIn(lines[|lines| - 1]);
      if e.Some? then e else LastError(lines[..|lines| - 1])
  }

  function LastReserved(lines: seq<Line>): Option<int> {
    if lines == [] then None
    else
      var l := lines[|lines| - 1];
      if l.Packet? && l.reserved.Some? then l.reserved else LastReserved(lines[..|lines| - 1])
  }

  /** The marks agree with the counters. */
  predicate MarksAgree(s: Summary) {
    && (FirstPacket in s.marked <==> s.packets > 0)
    && (FirstAnswerToken in s.marked <==> s.chars > 0)
    && (FirstSearchDoc in s.marked <==> s.docs > 0)
  }

  lemma {:induction false} LineKeepsAgreement(s: Summary, line: Line)
    requires MarksAgree(s)
    ensures MarksAgree(FedLine(s, line).summary)
  {
    var f := Identified(Begun(s), if line.Packet? then line.reserved else None);
    assert MarksAgree(f.summary);
    if line.Packet? && line.error.None? && line.obj.Some? {
      DispatchKeepsAgreement(f, line.obj.value);
    }
  }

  lemma {:induction false} DispatchKeepsAgreement(f: Fed, o: Object)
    requires MarksAgree(f.summary)
    ensures MarksAgree(Dispatched(f, o).summary)
  {
  }

  lemma {:induction false} LineMarksPhases(s: Summary, line: Line)
    ensures var after := FedLine(s, line).summary;
            && (FirstDrPlan in after.marked <==> FirstDrPlan in s.marked || IsA(line, PlanStart))
            && (FirstResearchAgent in after.marked <==> FirstResearchAgent in s.marked || IsA(line, AgentStart))
  {
    if line.Packet? && line.error.None? && line.obj.Some? {
      DispatchMarksPhases(Identified(Begun(s), line.reserved), line.obj.value);
    }
  }

  lemma {:induction false} DispatchMarksPhases(f: Fed, o: Object)
    ensures var after := Dispatched(f, o).summary;
            && (FirstDrPlan in after.marked <==>
                  FirstDrPlan in f.summary.marked || (o.error.None? && o.kind.PlanStart?))
            && (FirstResearchAgent in after.marked <==>
                  FirstResearchAgent in f.summary.marked || (o.error.None? && o.kind.AgentStart?))
  {
  }

  /** Over any stream a milestone is marked exactly when its counter has moved or its packet was seen. */
  lemma {:induction false} MilestonesMatchCounters(lines: seq<Line>)
    ensures MarksAgree(SummaryOf(lines))
    ensures FirstDrPlan in SummaryOf(lines).marked <==> SomeLineIs(lines, PlanStart)
    ensures FirstResearchAgent in SummaryOf(lines).marked <==> SomeLineIs(lines, AgentStart)
  {
    if lines != [] {
      var n := |lines| - 1;
      MilestonesMatchCounters(lines[..n]);
      LineKeepsAgreement(SummaryOf(lines[..n]), lines[n]);
      LineMarksPhases(SummaryOf(lines[..n]), lines[n]);
      SomeLineIsSnoc(lines, PlanStart);
      SomeLineIsSnoc(lines, AgentStart);
    }
  }

  lemma {:induction false} SomeLineIsSnoc(lines: seq<Line>, kind: Kind)
    requires lines != []
    ensures SomeLineIs(lines, kind) <==> SomeLineIs(lines[..|lines| - 1], kind) || IsA(lines[|lines| - 1], kind)
  {
    var n := |lines| - 1;
    if SomeLineIs(lines[..n], kind) {
      var i :| 0 <= i < n && IsA(lines[..n][i], kind);
      assert IsA(lines[i], kind);
    }
    if SomeLineIs(lines, kind) {
      var i :| 0 <= i < |lines| && IsA(lines[i], kind);
      assert i < n ==> IsA(lines[..n][i], kind);
    }
  }

  /** What one line adds to the summary, told from the line alone. */
  ghost predicate Adds(s: Summary, line: Line, after: Summary) {
    && after.chars == s.chars + CharsIn(line)
    && after.docs == s.docs + DocsIn(line)
    && after.error == (if ErrorIn(line).Some? then ErrorIn(line) else s.error)
    && after.reserved == (if line.Packet? && line.reserved.Some? then line.reserved else s.reserved)
    && (after.sawStart <==> s.sawStart || IsA(line, MessageStart))
    && (after.sawStop <==> s.sawStop || IsA(line, Stop))
  }

  lemma {:induction false} LineAdds(s: Summary, line: Line)
    ensures Adds(s, line, FedLine(s, line).summary)
  {
    if line.Packet? && line.error.None? && line.obj.Some? {
      DispatchAdds(Identified(Begun(s), line.reserved), line.obj.value);
    }
  }

  lemma {:induction false} DispatchAdds(f: Fed, o: Object)
    ensures Adds(f.summary, Packet(None, None, Some(o)), Dispatched(f, o).summary)
  {
    if o.kind == MessageStart {
      AnswerAdds(f.(summary := f.summary.(sawStart := true)), o.content);
    } else if o.kind == MessageDelta {
      AnswerAdds(f, o.content);
    }
  }

  lemma {:induction false} AnswerAdds(f: Fed, content: Field)
    ensures var s := Answered(f, content).summary;
            s == f.summary.(chars := f.summary.chars + Size(content), marked := s.marked)
  {
  }

  /** The counters, flags, error and id of the summary, each as a statement about the lines alone. */
  lemma {:induction false} SummaryDescribesLines(lines: seq<Line>)
    ensures var s := SummaryOf(lines);
            && s.chars == TotalChars(lines)
            && s.docs == TotalDocs(lines)
            && s.error == LastError(lines)
            && s.reserved == LastReserved(lines)
            && (s.sawStart <==> SomeLineIs(lines, MessageStart))
            && (s.sawStop <==> SomeLineIs(lines, Stop))
  {
    if lines != [] {
      SummaryDescribesLines(lines[..|lines| - 1]);
      LineAdds(SummaryOf(lines[..|lines| - 1]), lines[|lines| - 1]);
      SomeLineIsSnoc(lines, MessageStart);
      SomeLineIsSnoc(lines, Stop);
    }
  }

  // ---------------------------------------------------------------- counted and raising lines

  predicate IsCounted(line: Line) { !line.Blank? }

  predicate IsHeartbeat(line: Line) { IsA(line, Heartbeat) }

  function HowMany(lines: seq<Line>, which: Line -> bool): nat {
    if lines == [] then 0 else HowMany(lines[..|lines| - 1], which) + if which(lines[|lines| - 1]) then 1 else 0
  }

  /** Packets are the lines that are not blank, heartbeats the sound packets of that kind. */
  lemma {:induction false} PacketsAreLines(lines: seq<Line>)
    ensures SummaryOf(lines).packets == HowMany(lines, IsCounted)
    ensures SummaryOf(lines).heartbeats == HowMany(lines, IsHeartbeat)
  {
    if lines != [] {
      var n := |lines| - 1;
      PacketsAreLines(lines[..n]);
      LineCounts(SummaryOf(lines[..n]), lines[n]);
    }
  }

  lemma {:induction false} LineCounts(s: Summary, line: Line)
    ensures FedLine(s, line).summary.packets == s.packets + if IsCounted(line) then 1 else 0
    ensures FedLine(s, line).summary.heartbeats == s.heartbeats + if IsHeartbeat(line) then 1 else 0
  {
    if line.Packet? && line.error.None? && line.obj.Some? {
      DispatchCounts(Identified(Begun(s), line.reserved), line.obj.value);
    }
  }

  lemma {:induction false} DispatchCounts(f: Fed, o: Object)
    ensures Dispatched(f, o).summary.packets == f.summary.packets
    ensures Dispatched(f, o).summary.heartbeats
         == f.summary.heartbeats + if o.error.None? && o.kind.Heartbeat? then 1 else 0
  {}

  /** The line asks a number for its length. */
  predicate LineRaises(line: Line) {
    || ((IsA(line, MessageStart) || IsA(line, MessageDelta)) && line.obj.value.content.Unsized?)
    || (IsA(line, DocumentsDelta) && line.obj.value.documents.Unsized?)
  }

  lemma {:induction false} RaisesIff(s: Summary, line: Line)
    ensures FedLine(s, line).raised <==> LineRaises(line)
  {
    if line.Packet? && line.error.None? && line.obj.Some? {
      DispatchRaises(Identified(Begun(s), line.reserved), line.obj.value);
    }
  }

  lemma {:induction false} DispatchRaises(f: Fed, o: Object)
    requires !f.raised
    ensures Dispatched(f, o).raised <==>
              o.error.None? && ((o.kind in {MessageStart, MessageDelta} && o.content.Unsized?)
                                || (o.kind == DocumentsDelta && o.documents.Unsized?))
  {}

  /** Later lines never clear an error. */
  lemma {:induction false} ErrorsStay(lines: seq<Line>, more: seq<Line>)
    ensures SummaryOf(lines).error.Some? ==> SummaryOf(lines + more).error.Some?
  {
    SummaryDescribesLines(lines);
    SummaryDescribesLines(lines + more);
    LastErrorIff(lines);
    LastErrorIff(lines + more);
    assert forall i | 0 <= i < |lines| :: (lines + more)[i] == lines[i];
  }

  // ---------------------------------------------------------------- the verdict

  datatype Reason =
    | Reported(text: string)
    | NoAnswer(packets: nat, sawStop: bool)
    | Truncated(packets: nat, chars: nat)
    | UnknownFailure

  predicate CompletedOk(s: Summary) {
    s.error.None? && s.sawStart && s.chars > 0 && s.sawStop
  }

  function FailureReason(s: Summary): Reason {
    if s.error.Some? && Shown(s.error.value) != "" then Reported(Shown(s.error.value))
    else if !s.sawStart || s.chars == 0 then NoAnswer(s.packets, s.sawStop)
    else if !s.sawStop then Truncated(s.packets, s.chars)
    else UnknownFailure
  }

  /** A stream that is not complete always has a specific reason, and a complete one never does. */
  lemma {:induction false} ReasonIsSpecific(s: Summary)
    ensures FailureReason(s) == UnknownFailure <==> CompletedOk(s)
  {
  }

  /**
   The reason for any stream, told from its lines: the last error if a line reports one, else that there
   was no answer, else that it was cut off, with the counts of lines and characters.
   */
  lemma {:induction false} ReasonIsTold(lines: seq<Line>)
    ensures FailureReason(SummaryOf(lines)) ==
              if LastError(lines).Some? then Reported(Shown(LastError(lines).value))
              else if !SomeLineIs(lines, MessageStart) || TotalChars(lines) == 0 then
                NoAnswer(HowMany(lines, IsCounted), SomeLineIs(lines, Stop))
              else if !SomeLineIs(lines, Stop) then Truncated(HowMany(lines, IsCounted), TotalChars(lines))
              else UnknownFailure
  {
    SummaryDescribesLines(lines);
    PacketsAreLines(lines);
  }

  /**
   A stream is complete exactly when its lines hold a start packet, some answer text, a stop
   packet, and no error of any kind.
   */
  lemma {:induction false} CompleteIff(lines: seq<Line>)
    ensures CompletedOk(SummaryOf(lines)) <==>
              && (forall i | 0 <= i < |lines| :: ErrorIn(lines[i]).None?)
              && SomeLineIs(lines, MessageStart) && SomeLineIs(lines, Stop)
              && exists i | 0 <= i < |lines| :: CharsIn(lines[i]) > 0
  {
    SummaryDescribesLines(lines);
    LastErrorIff(lines);
    TotalCharsIff(lines);
  }

  lemma {:induction false} LastErrorIff(lines: seq<Line>)
    ensures LastError(lines).None? <==> forall i | 0 <= i < |lines| :: ErrorIn(lines[i]).None?
  {
    if lines != [] {
      LastErrorIff(lines[..|lines| - 1]);
      assert forall i | 0 <= i < |lines| - 1 :: lines[..|lines| - 1][i] == lines[i];
    }
  }

  lemma {:induction false} TotalCharsIff(lines: seq<Line>)
    ensures TotalChars(lines) > 0 <==> exists i | 0 <= i < |lines| :: CharsIn(lines[i]) > 0
  {
    if lines != [] {
      TotalCharsIff(lines[..|lines| - 1]);
      assert forall i | 0 <= i < |lines| - 1 :: lines[..|lines| - 1][i] == lines[i];
    }
  }

  /**
   The reason can mislead: a stream whose answer did arrive is blamed for having no answer content
   exactly when it has no error line and its answer came without a start packet.
   */
  lemma {:induction false} AnswerDeniedIff(lines: seq<Line>)
    ensures SummaryOf(lines).chars > 0 && FailureReason(SummaryOf(lines)).NoAnswer? <==>
              && (forall i | 0 <= i < |lines| :: ErrorIn(lines[i]).None?)
              && (exists i | 0 <= i < |lines| :: CharsIn(lines[i]) > 0)
              && !SomeLineIs(lines, MessageStart)
  {
    SummaryDescribesLines(lines);
    LastErrorIff(lines);
    TotalCharsIff(lines);
  }

  /** So it happens: one delta with text and nothing else. */
  lemma {:induction false} AnswerMayBeDenied(size: nat)
    ensures var lines := [Packet(None, None, Some(Object(MessageDelta, None, Sized(size), Empty)))];
            SummaryOf(lines).chars > 0 && FailureReason(SummaryOf(lines)).NoAnswer?
  {
    AnswerDeniedIff([Packet(None, None, Some(Object(MessageDelta, None, Sized(size), Empty)))]);
  }

  // ---------------------------------------------------------------- the analyser

  class ChatStreamAnalyzer {
    var packets: nat
    var heartbeats: nat
    var chars: nat
    var docs: nat
    var sawStart: bool
    var sawStop: bool
    var error: Option<Problem>
    var marked: set<Milestone>
    var reserved: Option<int>

    function Current(): Summary
      reads this
    {
      Summary(packets, heartbeats, chars, docs, sawStart, sawStop, error, marked, reserved)
    }

    constructor ()
      ensures Current() == BLANK_SUMMARY
    {
      packets, heartbeats, chars, docs := 0, 0, 0, 0;
      sawStart, sawStop, error, marked, reserved := false, false, None, {}, None;
    }

    method Mark(m: Milestone, hit: seq<Milestone>) returns (longer: seq<Milestone>)
      modifies this`marked
      ensures marked == old(marked) + {m}
      ensures longer == if m in old(marked) then hit else hit + [m]
    {
      longer := hit;
      if m !in marked {
        marked := marked + {m};
        longer := hit + [m];
      }
    }

    /** Takes one line in: the new summary and the milestones are those of FedLine. */
    method Feed(line: Line) returns (hit: seq<Milestone>, raised: bool)
      modifies this
      ensures Fed(Current(), hit, raised) == FedLine(old(Current()), line)
    {
      hit, raised := [], false;
      if line.Blank? {
        return;
      }
      packets := packets + 1;
      hit := Mark(FirstPacket, hit);
      assert Fed(Current(), hit, raised) == Begun(old(Current()));
      match line {
        case Garbage(text) =>
          error := Some(Unparseable(text));
        case NotObject =>
        case Packet(id, problem, obj) =>
          if id.Some? {
            reserved := id;
          }
          assert Fed(Current(), hit, raised) == Identified(Begun(old(Current())), id);
          if problem.Some? {
            error := Problems(problem);
          } else if obj.Some? {
            hit, raised := Dispatch(obj.value, hit);
          }
      }
    }

    method Dispatch(o: Object, hit: seq<Milestone>) returns (longer: seq<Milestone>, raised: bool)
      modifies this
      ensures Fed(Current(), longer, raised) == Dispatched(Fed(old(Current()), hit, false), o)
    {
      longer, raised := hit, false;
      if o.kind == ErrorPacket || o.error.Some? {
        error := if o.error.Some? then Problems(o.error) else Some(UnnamedError);
      } else if o.kind == Heartbeat {
        heartbeats := heartbeats + 1;
      } else if o.kind == MessageStart {
        sawStart := true;
        longer, raised := Answer(o.content, hit);
      } else if o.kind == MessageDelta {
        longer, raised := Answer(o.content, hit);
      } else if o.kind == DocumentsDelta {
        if o.documents.Unsized? {
          raised := true;
          return;
        }
        docs := docs + Size(o.documents);
        if o.documents.Sized? {
          longer := Mark(FirstSearchDoc, hit);
        }
      } else if o.kind == PlanStart {
        longer := Mark(FirstDrPlan, hit);
      } else if o.kind == AgentStart {
        longer := Mark(FirstResearchAgent, hit);
      } else if o.kind == Stop {
        sawStop := true;
      }
    }

    method Answer(content: Field, hit: seq<Milestone>) returns (longer: seq<Milestone>, raised: bool)
      modifies this`chars, this`marked
      ensures Fed(Current(), longer, raised) == Answered(Fed(old(Current()), hit, false), content)
    {
      longer, raised := hit, false;
      if content.Unsized? {
        raised := true;
        return;
      }
      chars := chars + Size(content);
      if content.Sized? {
        longer := Mark(FirstAnswerToken, hit);
      }
    }
  }
}
