/** What the mock LLM's chooser picks, told from the request: which tools, in which order and how many. */
module MockChoice {
  import opened Lists
  import opened MockTools
  import opened Outcomes
  import Text

  // ---------------------------------------------------------------- what is read from the request

  /** The digits of a knob are read as the number they write. */
  lemma {:induction false} NumberOfDecimal(n: nat)
    ensures AllDigits(Text.Decimal(n)) && Number(Text.Decimal(n)) == n
  {
    if n >= 10 {
      var digits := Text.Decimal(n);
      NumberOfDecimal(n / 10);
      assert digits[..|digits| - 1] == Text.Decimal(n / 10);
    } else {
      assert Text.Decimal(n)[..0] == "";
    }
  }

  /** A setting changes its own knob to its number, agents at least to one, and no other knob. */
  lemma {:induction false} SetChangesOne(v: Values, f: Setting)
    requires AllDigits(f.digits)
    ensures var n, w := Number(f.digits), Set(v, f);
            && w.ttftMs == (if f.name == "ttft" then n else v.ttftMs)
            && w.itlMs == (if f.name == "itl" then n else v.itlMs)
            && w.tokens == (if f.name == "len" then n else v.tokens)
            && w.autoTools == (if f.name == "tools" then n else v.autoTools)
            && w.agents == (if f.name == "agents" then if n > 1 then n else 1 else v.agents)
            && w.maxContext == (if f.name == "maxctx" then n else v.maxContext)
  {
    assert |"ttft"| == 4 && |"itl"| == 3 && |"len"| == 3 && |"tools"| == 5 && |"agents"| == 6 && |"maxctx"| == 6;
    assert "itl"[0] != "len"[0] && "agents"[0] != "maxctx"[0];
  }

  /** The definition that counts for a name is the last one of that name. */
  predicate IsLastNamed(tools: seq<Tool>, name: string, i: nat) {
    i < |tools| && tools[i].name == name && forall j | i < j < |tools| :: tools[j].name != name
  }

  lemma {:induction false} LastNamedIs(tools: seq<Tool>, name: string, i: nat)
    requires IsLastNamed(tools, name, i)
    ensures ByName(tools, name) == Some(tools[i])
  {
    var last := |tools| - 1;
    if i < last { LastNamedIs(tools[..last], name, i); }
  }

  lemma {:induction false} SomeLastNamed(tools: seq<Tool>, name: string) returns (i: nat)
    requires exists t :: t in tools && t.name == name
    ensures IsLastNamed(tools, name, i)
  {
    var last := |tools| - 1;
    if tools[last].name == name {
      i := last;
    } else {
      var t :| t in tools && t.name == name;
      assert tools == tools[..last] + [tools[last]];
      i := SomeLastNamed(tools[..last], name);
    }
  }

  /** A name stands for the last tool defined under it, and for none exactly when no tool has it. */
  lemma {:induction false} ByNameIff(tools: seq<Tool>, name: string)
    ensures forall i: nat | IsLastNamed(tools, name, i) :: ByName(tools, name) == Some(tools[i])
    ensures ByName(tools, name).None? <==> forall i: nat :: !IsLastNamed(tools, name, i)
  {
    forall i: nat | IsLastNamed(tools, name, i) ensures ByName(tools, name) == Some(tools[i]) {
      LastNamedIs(tools, name, i);
    }
    if ByName(tools, name).Some? {
      assert ByName(tools, name).value in tools;
      var i := SomeLastNamed(tools, name);
    }
  }

  function NamesOf(tools: seq<Tool>): (r: seq<string>)
    ensures |r| == |tools| && forall i | 0 <= i < |r| :: r[i] == tools[i].name
  {
    seq(|tools|, i requires 0 <= i < |tools| => tools[i].name)
  }

  /** The tools available under some names: one for each name that is offered, in the order of the names. */
  lemma {:induction false} AvailableIs(tools: seq<Tool>, names: seq<string>)
    ensures PicksOut(names, NamesOf(Available(tools, names)), name => Offered(tools, name))
    ensures forall t | t in Available(tools, names) :: ByName(tools, t.name) == Some(t)
  {
    if names != [] {
      var all, rest := Available(tools, names), Available(tools, names[1..]);
      AvailableIs(tools, names[1..]);
      if Offered(tools, names[0]) {
        assert all[1..] == rest && NamesOf(all)[1..] == NamesOf(rest);
      }
    }
  }

  /** Message `i` is the last one of the user that holds text. */
  predicate IsLastUser(messages: seq<Message>, i: nat) {
    i < |messages| && SpeaksFor(messages[i]) && forall j | i < j < |messages| :: !SpeaksFor(messages[j])
  }

  predicate SpeaksFor(m: Message) { m.role == "user" && ContentText(m.content).Some? }

  lemma {:induction false} LastUserTextIs(messages: seq<Message>)
    ensures forall i: nat | IsLastUser(messages, i) :: Some(LastUserText(messages)) == ContentText(messages[i].content)
    ensures (forall i | 0 <= i < |messages| :: !SpeaksFor(messages[i])) ==> LastUserText(messages) == "load test query"
  {
    if messages != [] {
      var last := |messages| - 1;
      LastUserTextIs(messages[..last]);
      forall i: nat | IsLastUser(messages, i)
        ensures Some(LastUserText(messages)) == ContentText(messages[i].content)
      {
        if i < last { assert IsLastUser(messages[..last], i); }
      }
    }
  }

  /** The text of multimodal content is its first part that holds text. */
  lemma {:induction false} FirstTextIs(parts: seq<Option<string>>, i: nat)
    requires i < |parts| && parts[i].Some? && forall j | 0 <= j < i :: parts[j].None?
    ensures FirstText(parts) == parts[i]
  {
    if i > 0 { FirstTextIs(parts[1..], i - 1); }
  }

  /** All the text of the messages, one after the other. */
  function AllText(messages: seq<Message>): string {
    if messages == [] then ""
    else
      var text := ContentText(messages[0].content);
      (if text.Some? then text.value else "") + AllText(messages[1..])
  }

  lemma {:induction false} AllTextSnoc(messages: seq<Message>, m: Message)
    ensures |AllText(messages + [m])|
         == |AllText(messages)| + if ContentText(m.content).Some? then |ContentText(m.content).value| else 0
  {
    var all := messages + [m];
    if messages == [] {
      assert all[1..] == [];
    } else {
      assert all[1..] == messages[1..] + [m];
      AllTextSnoc(messages[1..], m);
    }
  }

  /** A prompt counts as long as its text, and four more for each message. */
  lemma {:induction false} PromptIs(messages: seq<Message>)
    ensures PromptChars(messages) == |AllText(messages)| + 4 * |messages|
  {
    if messages != [] {
      var last := |messages| - 1;
      PromptIs(messages[..last]);
      AllTextSnoc(messages[..last], messages[last]);
      assert messages == messages[..last] + [messages[last]];
    }
  }

  // ---------------------------------------------------------------- what is picked

  /** One call of the offered tool of this name, made from the user's text. */
  predicate CallsOnly(r: Request, name: string, calls: seq<Call>) {
    |calls| == 1 && ByName(r.tools, name) == Some(calls[0].tool) && calls[0].text == Snippet(r.messages)
  }

  /** A forced function is called and nothing else, and it is an error exactly when it is not offered. */
  lemma {:induction false} ForcedIsCalled(r: Request, name: string, autoTools: nat, agents: nat)
    requires r.choice == Forced(Some(name))
    ensures PickTool(r, autoTools, agents).Err? <==> name == "" || !Offered(r.tools, name)
    ensures PickTool(r, autoTools, agents).Ok? ==> CallsOnly(r, name, PickTool(r, autoTools, agents).value)
  {}

  /** Agents are called as many times as the knob says, each for its own numbered aspect. */
  predicate CallsAgents(r: Request, agents: nat, calls: seq<Call>) {
    && |calls| == agents
    && forall i | 0 <= i < agents ::
         ByName(r.tools, RESEARCH_AGENT) == Some(calls[i].tool)
         && calls[i].text == "research aspect " + Text.Decimal(i + 1) + ": " + Snippet(r.messages)
  }

  /** The first retrieval tool offered, in the fixed order. */
  predicate IsFirstRetrieval(tools: seq<Tool>, k: nat) {
    && k < |RETRIEVAL_TOOLS| && Offered(tools, RETRIEVAL_TOOLS[k])
    && forall j | 0 <= j < k :: !Offered(tools, RETRIEVAL_TOOLS[j])
  }

  lemma {:induction false} FirstAvailable(tools: seq<Tool>, names: seq<string>, k: nat)
    requires k < |names| && Offered(tools, names[k]) && forall j | 0 <= j < k :: !Offered(tools, names[j])
    ensures Available(tools, names) != [] && ByName(tools, names[k]) == Some(Available(tools, names)[0])
  {
    if k > 0 { FirstAvailable(tools, names[1..], k - 1); }
  }

  lemma {:induction false} SomeRetrieval(tools: seq<Tool>, names: seq<string>) returns (k: nat)
    requires exists n :: n in names && Offered(tools, n)
    ensures k < |names| && Offered(tools, names[k]) && forall j | 0 <= j < k :: !Offered(tools, names[j])
  {
    if Offered(tools, names[0]) {
      k := 0;
    } else {
      k := SomeRetrieval(tools, names[1..]);
      k := k + 1;
    }
  }

  /** What a REQUIRED choice picks, case by case. */
  lemma {:induction false} RequiredIs(r: Request, autoTools: nat, agents: nat, calls: seq<Call>)
    requires r.choice == Word("required") && r.tools != [] && PickTool(r, autoTools, agents) == Ok(calls)
    ensures var agent, report := Offered(r.tools, RESEARCH_AGENT), Offered(r.tools, GENERATE_REPORT);
            var called, searched := AssistantCalled(r.messages, [RESEARCH_AGENT]),
                AssistantCalled(r.messages, RETRIEVAL_TOOLS);
            && (agent && !called ==> CallsAgents(r, agents, calls))
            && (agent && called && report ==> CallsOnly(r, GENERATE_REPORT, calls))
            && (!(agent && (!called || report)) ==>
                 && (forall k: nat | IsFirstRetrieval(r.tools, k) && !searched ::
                     CallsOnly(r, RETRIEVAL_TOOLS[k], calls))
                 && ((searched || forall k: nat :: !IsFirstRetrieval(r.tools, k)) ==>
                   if report then CallsOnly(r, GENERATE_REPORT, calls)
                   else calls == [Call(r.tools[0], Snippet(r.messages))]))
  {
    forall k: nat | IsFirstRetrieval(r.tools, k)
      ensures Available(r.tools, RETRIEVAL_TOOLS) != []
      ensures ByName(r.tools, RETRIEVAL_TOOLS[k]) == Some(Available(r.tools, RETRIEVAL_TOOLS)[0])
    {
      FirstAvailable(r.tools, RETRIEVAL_TOOLS, k);
    }
    if Available(r.tools, RETRIEVAL_TOOLS) != [] {
      var k := SomeRetrieval(r.tools, RETRIEVAL_TOOLS);
      assert IsFirstRetrieval(r.tools, k);
    }
  }

  /** The tools of the calls, in order. */
  function ToolsOf(calls: seq<Call>): (ts: seq<Tool>)
    ensures |ts| == |calls| && forall i | 0 <= i < |ts| :: ts[i] == calls[i].tool
  {
    seq(|calls|, i requires 0 <= i < |calls| => calls[i].tool)
  }

  /**
   What an AUTO choice picks: the plan when one is offered; else, before any tool result, the first so many of
   the retrieval tools offered, or the first tool if there is none; else nothing.
   */
  lemma {:induction false} AutoIs(r: Request, autoTools: nat, agents: nat, calls: seq<Call>)
    requires !r.choice.Forced? && r.choice != Word("required") && !SaysNone(r)
                && PickTool(r, autoTools, agents) == Ok(calls)
    ensures var retrieval := Available(r.tools, RETRIEVAL_TOOLS);
            && (Offered(r.tools, GENERATE_PLAN) ==> CallsOnly(r, GENERATE_PLAN, calls))
            && (!Offered(r.tools, GENERATE_PLAN) ==>
                 if autoTools == 0 || HasToolResult(r.messages) then calls == []
                 else
                   && (forall i | 0 <= i < |calls| :: calls[i].text == Snippet(r.messages))
                   && (if retrieval == [] then ToolsOf(calls) == [r.tools[0]]
                       else
                         && ToolsOf(calls) <= retrieval
                         && |calls| == if |retrieval| < autoTools then |retrieval| else autoTools))
  {}

  // ---------------------------------------------------------------- what the handler makes of it

  /** The decision on a request: refused for its length, refused for its choice, calls, or text. */
  lemma {:induction false} DecisionIs(r: Request, v: Values, arguments: Arguments, ids: Ids)
    ensures var used := (|AllText(r.messages)| + 4 * |r.messages|) / 4;
            var picked := PickTool(r, v.autoTools, v.agents);
            match Decide(r, v, arguments, ids)
            case ContextWindowError(limit, n) => 0 < v.maxContext < used && limit == v.maxContext && n == used
            case BadRequest => !(0 < v.maxContext < used) && picked.Err?
            case Answer(CallReply(calls), finish, _) =>
              && !(0 < v.maxContext < used) && picked.Ok? && finish == "tool_calls" && calls != []
              && |calls| == |picked.value|
              && forall i | 0 <= i < |calls| ::
                   calls[i] == MockStream.ToolCall(ids(i), picked.value[i].tool.name, arguments(picked.value[i]))
            case Answer(TextReply(answer), finish, tokens) =>
              && !(0 < v.maxContext < used) && picked == Ok([]) && finish == "stop"
              && answer == TextFor(r, v.tokens) && tokens == TokensFor(r, v.tokens)
  {
    PromptIs(r.messages);
  }

  /** An echo flow is answered with the end of the user's text, anything else with so many filler words in turn. */
  lemma {:induction false} TextIs(r: Request, tokens: nat)
    ensures IsEchoFlow(r.messages) ==>
              var text, answer := LastUserText(r.messages), TextFor(r, tokens);
              |answer| == (if |text| < 300 then |text| else 300) && answer == text[|text| - |answer|..]
    ensures !IsEchoFlow(r.messages) ==>
              exists words :: TextFor(r, tokens) == Text.Join(words, ' ') && |words| == CappedTokens(r, tokens)
                && forall i | 0 <= i < |words| :: words[i] == FILLER_WORDS[i % |FILLER_WORDS|]
  {
    if !IsEchoFlow(r.messages) {
      var words := Filler(CappedTokens(r, tokens));
      assert TextFor(r, tokens) == Text.Join(words, ' ');
    }
  }

  /** The limit of the request caps the number of words at one or more; a zero does not count as a limit. */
  lemma {:induction false} CapIs(r: Request, tokens: nat)
    ensures var cap := if r.maxTokens.Some? && r.maxTokens.value != 0 then r.maxTokens else r.maxCompletionTokens;
            && CappedTokens(r, tokens) <= tokens
            && (cap.None? ==> CappedTokens(r, tokens) == tokens)
            && (cap.Some? ==> CappedTokens(r, tokens) <= (if cap.value > 1 then cap.value else 1)
                              && (CappedTokens(r, tokens) == tokens || CappedTokens(r, tokens) == cap.value
                                  || cap.value < 1))
            && (cap.Some? && cap.value < 1 && tokens > 0 ==> CappedTokens(r, tokens) == 1)
  {}
}
