/**
 The streamed replies of the mock LLM (loadtest/mock_llm/app.py), and a client that puts them back
 together: what arrives is what the non-streamed reply would have said.
 */
module MockStream {
  import opened Outcomes
  import opened Text

  datatype ToolCall = ToolCall(id: string, name: string, arguments: string)

  /** One entry of a chunk's tool_calls; absent fields are left out on the wire. */
  datatype CallDelta = CallDelta(index: nat, id: Option<string>, name: Option<string>, arguments: Option<string>)

  datatype Chunk = Chunk(role: Option<string>, content: Option<string>, calls: seq<CallDelta>, finish: Option<string>)

  datatype Event = Data(chunk: Chunk) | Done

  /** A reply decided before anything is sent. */
  datatype Reply = TextReply(answer: string) | CallReply(calls: seq<ToolCall>)

  // ---------------------------------------------------------------- words

  /** The length of the run of characters before the first white space. */
  function WordLength(s: string): (n: nat)
    ensures n <= |s|
    ensures forall i | 0 <= i < n :: !IsSpace(s[i])
    ensures n < |s| ==> IsSpace(s[n])
  {
    if s == "" || IsSpace(s[0]) then 0 else 1 + WordLength(s[1..])
  }

  /** `s.split()`. */
  function Words(s: string): seq<string>
    decreases |s|
  {
    if s == "" then []
    else if IsSpace(s[0]) then Words(s[1..])
    else
      var n := WordLength(s);
      assert n > 0;
      [s[..n]] + Words(s[n..])
  }

  predicate IsWord(w: string) {
    w != "" && forall i | 0 <= i < |w| :: !IsSpace(w[i])
  }

  lemma {:induction false} WordsAreWords(s: string)
    ensures forall w | w in Words(s) :: IsWord(w)
    decreases |s|
  {
    if s != "" {
      if IsSpace(s[0]) {
        WordsAreWords(s[1..]);
      } else {
        WordsAreWords(s[WordLength(s)..]);
      }
    }
  }

  lemma {:induction false} WordLengthOf(w: string, rest: string)
    requires forall i | 0 <= i < |w| :: !IsSpace(w[i])
    requires rest == "" || IsSpace(rest[0])
    ensures WordLength(w + rest) == |w|
  {
    if w == "" {
      assert w + rest == rest;
    } else {
      assert (w + rest)[1..] == w[1..] + rest;
      WordLengthOf(w[1..], rest);
    }
  }

  lemma {:induction false} WordsStep(w: string, rest: string)
    requires IsWord(w) && (rest == "" || IsSpace(rest[0]))
    ensures Words(w + rest) == [w] + Words(rest)
  {
    WordLengthOf(w, rest);
    assert (w + rest)[..|w|] == w && (w + rest)[|w|..] == rest;
  }

  /** What the client has after the content chunks: each word followed by a blank. */
  function Spelled(words: seq<string>): string {
    if words == [] then "" else Spelled(words[..|words| - 1]) + words[|words| - 1] + " "
  }

  lemma {:induction false} SpelledCons(w: string, words: seq<string>)
    ensures Spelled([w] + words) == w + " " + Spelled(words)
  {
    if words == [] {
      assert [w] + words == [w];
    } else {
      var last := |words| - 1;
      SpelledCons(w, words[..last]);
      assert ([w] + words)[..|words|] == [w] + words[..last];
    }
  }

  lemma {:induction false} WordsOfSpelled(words: seq<string>)
    requires forall w | w in words :: IsWord(w)
    ensures Words(Spelled(words)) == words
  {
    if words != [] {
      var w, rest := words[0], words[1..];
      assert words == [w] + rest;
      SpelledCons(w, rest);
      WordsOfSpelled(rest);
      assert w + " " + Spelled(rest) == w + (" " + Spelled(rest));
      WordsStep(w, " " + Spelled(rest));
      assert (" " + Spelled(rest))[1..] == Spelled(rest);
    }
  }

  /** Joining words with blanks and splitting again gives the same words. */
  lemma {:induction false} WordsOfJoined(words: seq<string>)
    requires forall w | w in words :: IsWord(w)
    ensures Words(Join(words, ' ')) == words
  {
    if |words| == 1 {
      WordsStep(words[0], "");
      assert words[0] + "" == words[0];
    } else if words != [] {
      var rest := Join(words[1..], ' ');
      WordsOfJoined(words[1..]);
      assert words[0] + [' '] + rest == words[0] + ([' '] + rest);
      WordsStep(words[0], [' '] + rest);
      assert ([' '] + rest)[1..] == rest;
    }
  }

  // ---------------------------------------------------------------- the server

  function HeaderDeltas(calls: seq<ToolCall>): (r: seq<CallDelta>)
    ensures |r| == |calls|
  {
    seq(|calls|, i requires 0 <= i < |calls| => CallDelta(i, Some(calls[i].id), Some(calls[i].name), Some("")))
  }

  function Header(calls: seq<ToolCall>): Chunk { Chunk(Some("assistant"), None, HeaderDeltas(calls), None) }

  function ArgumentsChunk(calls: seq<ToolCall>, i: nat): Chunk
    requires i < |calls|
  {
    Chunk(None, None, [CallDelta(i, None, None, Some(calls[i].arguments))], None)
  }

  function Closing(finish: string): Chunk { Chunk(None, None, [], Some(finish)) }

  function Opening(): Chunk { Chunk(Some("assistant"), Some(""), [], None) }

  function WordChunk(word: string): Chunk { Chunk(None, Some(word + " "), [], None) }

  // ---------------------------------------------------------------- the client

  datatype Assembly = Assembly(content: string, calls: map<nat, ToolCall>, finishes: seq<string>)

  const NOTHING := Assembly("", map[], [])

  function Value(o: Option<string>, fallback: string): string {
    if o.Some? then o.value else fallback
  }

  /** Entries are merged by index: id and name are taken when present, arguments are appended. */
  function AbsorbCall(calls: map<nat, ToolCall>, d: CallDelta): map<nat, ToolCall> {
    var was := if d.index in calls then calls[d.index] else ToolCall("", "", "");
    calls[d.index := ToolCall(Value(d.id, was.id), Value(d.name, was.name), was.arguments + Value(d.arguments, ""))]
  }

  function AbsorbCalls(calls: map<nat, ToolCall>, ds: seq<CallDelta>): map<nat, ToolCall> {
    if ds == [] then calls else AbsorbCall(AbsorbCalls(calls, ds[..|ds| - 1]), ds[|ds| - 1])
  }

  function Absorb(a: Assembly, c: Chunk): Assembly {
    Assembly(a.content + Value(c.content, ""), AbsorbCalls(a.calls, c.calls),
             if c.finish.Some? then a.finishes + [c.finish.value] else a.finishes)
  }

  /** Reads events up to the end marker. */
  function Assembled(events: seq<Event>): Assembly {
    if events == [] then NOTHING
    else
      var last := |events| - 1;
      var a := Assembled(events[..last]);
      if events[last].Data? then Absorb(a, events[last].chunk) else a
  }

  lemma {:induction false} AssembledSnoc(events: seq<Event>, c: Chunk)
    ensures Assembled(events + [Data(c)]) == Absorb(Assembled(events), c)
    ensures Assembled(events + [Done]) == Assembled(events)
  {
    assert (events + [Data(c)])[..|events|] == events;
    assert (events + [Done])[..|events|] == events;
  }

  /** The table of the calls, the arguments of those from `k` on still missing. */
  function Table(calls: seq<ToolCall>, k: nat): map<nat, ToolCall> {
    map i: nat | i < |calls| :: if i < k then calls[i] else calls[i].(arguments := "")
  }

  lemma {:induction false} HeaderAbsorbed(calls: seq<ToolCall>, n: nat)
    requires n <= |calls|
    ensures AbsorbCalls(map[], HeaderDeltas(calls)[..n]) == map i: nat | i < n :: calls[i].(arguments := "")
  {
    var ds := HeaderDeltas(calls);
    if n > 0 {
      HeaderAbsorbed(calls, n - 1);
      assert ds[..n][..n - 1] == ds[..n - 1] && ds[..n][n - 1] == ds[n - 1];
      var before := AbsorbCalls(map[], ds[..n - 1]);
      assert AbsorbCall(before, ds[n - 1]) == before[n - 1 := ToolCall(calls[n - 1].id, calls[n - 1].name, "" + "")];
      assert calls[n - 1].(arguments := "") == ToolCall(calls[n - 1].id, calls[n - 1].name, "" + "");
    } else {
      assert ds[..0] == [];
    }
  }

  lemma {:induction false} HeaderIsTable(calls: seq<ToolCall>)
    ensures Absorb(NOTHING, Header(calls)) == Assembly("", Table(calls, 0), [])
  {
    HeaderAbsorbed(calls, |calls|);
    assert HeaderDeltas(calls)[..|calls|] == HeaderDeltas(calls);
  }

  lemma {:induction false} ArgumentsFillTable(calls: seq<ToolCall>, k: nat)
    requires k < |calls|
    ensures Absorb(Assembly("", Table(calls, k), []), ArgumentsChunk(calls, k)) == Assembly("", Table(calls, k + 1), [])
  {
    var d := CallDelta(k, None, None, Some(calls[k].arguments));
    assert [d][..0] == [];
    assert AbsorbCalls(Table(calls, k), [d]) == AbsorbCall(Table(calls, k), d);
    assert "" + calls[k].arguments == calls[k].arguments;
    assert AbsorbCall(Table(calls, k), d) == Table(calls, k)[k := calls[k]];
    assert Table(calls, k)[k := calls[k]] == Table(calls, k + 1);
  }

  /** How many chunks carry text. */
  function ContentChunks(events: seq<Event>): nat {
    if events == [] then 0
    else
      var last := events[|events| - 1];
      ContentChunks(events[..|events| - 1]) +
      (if last.Data? && last.chunk.content.Some? && last.chunk.content.value != "" then 1 else 0)
  }

  lemma {:induction false} ContentChunksSnoc(events: seq<Event>, e: Event)
    ensures ContentChunks(events + [e]) == ContentChunks(events) +
              (if e.Data? && e.chunk.content.Some? && e.chunk.content.value != "" then 1 else 0)
  {
    assert (events + [e])[..|events|] == events;
  }

  /** The stream ends with the end marker, right after its only chunk with a finish reason. */
  ghost predicate WellFramed(events: seq<Event>, finish: string) {
    && |events| >= 2
    && events[|events| - 1] == Done
    && events[|events| - 2] == Data(Closing(finish))
    && forall i | 0 <= i < |events| - 2 :: events[i].Data? && events[i].chunk.finish.None?
  }

  method EmitCalls(calls: seq<ToolCall>) returns (events: seq<Event>)
    ensures Assembled(events) == Assembly("", Table(calls, |calls|), ["tool_calls"])
    ensures WellFramed(events, "tool_calls")
    ensures ContentChunks(events) == 0
  {
    events := [Data(Header(calls))];
    HeaderIsTable(calls);
    AssembledSnoc([], Header(calls));
    ContentChunksSnoc([], Data(Header(calls)));
    assert [] + [Data(Header(calls))] == events;
    for i := 0 to |calls|
      invariant Assembled(events) == Assembly("", Table(calls, i), [])
      invariant ContentChunks(events) == 0 && events != []
      invariant forall j | 0 <= j < |events| :: events[j].Data? && events[j].chunk.finish.None?
    {
      ArgumentsFillTable(calls, i);
      AssembledSnoc(events, ArgumentsChunk(calls, i));
      ContentChunksSnoc(events, Data(ArgumentsChunk(calls, i)));
      events := events + [Data(ArgumentsChunk(calls, i))];
    }
    events := Close(events, "tool_calls");
  }

  lemma {:induction false} OneWordMore(events: seq<Event>, words: seq<string>, i: nat)
    requires i < |words|
    requires Assembled(events) == Assembly(Spelled(words[..i]), map[], [])
    ensures Assembled(events + [Data(WordChunk(words[i]))]) == Assembly(Spelled(words[..i + 1]), map[], [])
    ensures ContentChunks(events + [Data(WordChunk(words[i]))]) == ContentChunks(events) + 1
  {
    AssembledSnoc(events, WordChunk(words[i]));
    ContentChunksSnoc(events, Data(WordChunk(words[i])));
    assert words[..i + 1][..i] == words[..i];
    assert Spelled(words[..i]) + (words[i] + " ") == Spelled(words[..i]) + words[i] + " ";
  }

  method EmitText(answer: string) returns (events: seq<Event>)
    ensures Assembled(events) == Assembly(Spelled(Words(answer)), map[], ["stop"])
    ensures WellFramed(events, "stop")
    ensures ContentChunks(events) == |Words(answer)|
  {
    var words := Words(answer);
    events := [Data(Opening())];
    AssembledSnoc([], Opening());
    ContentChunksSnoc([], Data(Opening()));
    assert [] + [Data(Opening())] == events;
    assert words[..0] == [];
    for i := 0 to |words|
      invariant Assembled(events) == Assembly(Spelled(words[..i]), map[], [])
      invariant ContentChunks(events) == i && events != []
      invariant forall j | 0 <= j < |events| :: events[j].Data? && events[j].chunk.finish.None?
    {
      OneWordMore(events, words, i);
      events := events + [Data(WordChunk(words[i]))];
    }
    assert words[..|words|] == words;
    events := Close(events, "stop");
  }

  /** The last chunk and the end marker. */
  method Close(events: seq<Event>, finish: string) returns (closed: seq<Event>)
    requires events != [] && forall j | 0 <= j < |events| :: events[j].Data? && events[j].chunk.finish.None?
    ensures WellFramed(closed, finish)
    ensures Assembled(closed) == Assembled(events).(finishes := Assembled(events).finishes + [finish])
    ensures ContentChunks(closed) == ContentChunks(events)
  {
    closed := events + [Data(Closing(finish))];
    AssembledSnoc(events, Closing(finish));
    ContentChunksSnoc(events, Data(Closing(finish)));
    AssembledSnoc(closed, Closing(finish));
    ContentChunksSnoc(closed, Done);
    closed := closed + [Done];
  }

  /** The calls of an assembly, in index order. */
  function Listed(calls: map<nat, ToolCall>, n: nat): seq<ToolCall> {
    seq(n, i requires 0 <= i < n => if i in calls then calls[i] else ToolCall("", "", ""))
  }

  /** The inner `generate`: what the client assembles says the same as the reply. */
  method Generate(reply: Reply) returns (events: seq<Event>)
    requires reply.CallReply? ==> reply.calls != []
    ensures reply.CallReply? ==>
              && WellFramed(events, "tool_calls")
              && (forall i: nat :: i in Assembled(events).calls <==> i < |reply.calls|)
              && Listed(Assembled(events).calls, |reply.calls|) == reply.calls
              && Assembled(events).content == "" && Assembled(events).finishes == ["tool_calls"]
    ensures reply.TextReply? ==>
              && WellFramed(events, "stop")
              && Words(Assembled(events).content) == Words(reply.answer)
              && ContentChunks(events) == |Words(reply.answer)|
              && Assembled(events).calls == map[] && Assembled(events).finishes == ["stop"]
  {
    match reply {
      case CallReply(calls) =>
        events := EmitCalls(calls);
      case TextReply(answer) =>
        events := EmitText(answer);
        WordsAreWords(answer);
        WordsOfSpelled(Words(answer));
    }
  }
}
