/**
 How the mock LLM decides what to answer (loadtest/mock_llm/app.py): the knobs read from the model
 name, the stateless tool chooser, and the request handler on top of them.
 */
module MockTools {
  import opened Outcomes
  import opened MockStream
  import Text

  // ---------------------------------------------------------------- knobs

  const KNOB_NAMES: seq<string> := ["ttft", "itl", "len", "tools", "agents", "maxctx"]

  /** One match of the knob expression: a name and its digits. */
  datatype Setting = Setting(name: string, digits: string)

  datatype Values = Values(ttftMs: nat, itlMs: nat, tokens: nat, autoTools: nat, agents: nat, maxContext: nat)

  predicate IsDigit(c: char) { '0' <= c <= '9' }

  predicate AllDigits(s: string) { forall i | 0 <= i < |s| :: IsDigit(s[i]) }

  /** Length of the leading run of digits. */
  function DigitRun(s: string): (n: nat)
    ensures n <= |s| && AllDigits(s[..n])
    ensures n < |s| ==> !IsDigit(s[n])
  {
    if s == "" || !IsDigit(s[0]) then 0 else 1 + DigitRun(s[1..])
  }

  /** `int(digits)`. */
  function Number(digits: string): nat
    requires AllDigits(digits)
  {
    if digits == "" then 0 else 10 * Number(digits[..|digits| - 1]) + (digits[|digits| - 1] as int - '0' as int)
  }

  /** `s` starts with `name` and at least one digit. */
  predicate StartsSetting(s: string, name: string) {
    |name| < |s| && s[..|name|] == name && IsDigit(s[|name|])
  }

  /** The first of the alternatives that matches at the start of `s`. */
  function KnobAt(names: seq<string>, s: string): (r: Option<string>)
    ensures r.Some? ==> StartsSetting(s, r.value) && r.value in names
  {
    if names == [] then None
    else if StartsSetting(s, names[0]) then Some(names[0])
    else KnobAt(names[1..], s)
  }

  /** The match at the start of `s`, if any, and how far the search moves on. */
  function NextMatch(names: seq<string>, s: string): (r: (seq<Setting>, nat))
    requires s != ""
    ensures 1 <= r.1 <= |s|
    ensures forall f | f in r.0 :: f.name in names && AllDigits(f.digits)
  {
    var at := if s[0] == '-' then KnobAt(names, s[1..]) else None;
    if at.None? then ([], 1) else MatchOf(at.value, s[1 + |at.value|..])
  }

  /** The match of a name, given what follows the name: the digits are taken greedily. */
  function MatchOf(name: string, rest: string): (r: (seq<Setting>, nat))
    ensures 1 <= r.1 <= 1 + |name| + |rest|
    ensures forall f | f in r.0 :: f.name == name && AllDigits(f.digits)
  {
    ([Setting(name, rest[..DigitRun(rest)])], 1 + |name| + DigitRun(rest))
  }

  /** `_KNOB_RE.findall`, for the alternatives given: leftmost matches that do not overlap. */
  function FindAll(names: seq<string>, s: string): (r: seq<Setting>)
    ensures forall f | f in r :: f.name in names && AllDigits(f.digits)
    decreases |s|
  {
    if s == "" then []
    else
      var next := NextMatch(names, s);
      next.0 + FindAll(names, s[next.1..])
  }

  /** One turn of the loop over the matches. */
  function Set(v: Values, f: Setting): Values
    requires AllDigits(f.digits)
  {
    var n := Number(f.digits);
    if f.name == "ttft" then v.(ttftMs := n)
    else if f.name == "itl" then v.(itlMs := n)
    else if f.name == "len" then v.(tokens := n)
    else if f.name == "tools" then v.(autoTools := n)
    else if f.name == "agents" then v.(agents := if n > 1 then n else 1)
    else if f.name == "maxctx" then v.(maxContext := n)
    else v
  }

  function SetAll(v: Values, fs: seq<Setting>): Values
    requires forall f | f in fs :: AllDigits(f.digits)
  {
    if fs == [] then v else Set(SetAll(v, fs[..|fs| - 1]), fs[|fs| - 1])
  }

  /** What an environment without overrides gives: the three `MOCK_...` variables. */
  function Defaults(ttftMs: nat, itlMs: nat, tokens: nat): Values { Values(ttftMs, itlMs, tokens, 0, 1, 0) }

  class Knobs {
    var ttftMs: nat
    var itlMs: nat
    var tokens: nat
    var autoTools: nat
    var agents: nat
    var maxContext: nat

    function Current(): Values
      reads this
    {
      Values(ttftMs, itlMs, tokens, autoTools, agents, maxContext)
    }

    constructor (model: string, ttft: nat, itl: nat, length: nat)
      ensures Current() == SetAll(Defaults(ttft, itl, length), FindAll(KNOB_NAMES, model))
      ensures agents >= 1
    {
      ttftMs, itlMs, tokens := ttft, itl, length;
      autoTools, agents, maxContext := 0, 1, 0;
      new;
      var found := FindAll(KNOB_NAMES, model);
      assert found[..0] == [];
      for i := 0 to |found|
        invariant forall f | f in found[..i] :: AllDigits(f.digits)
        invariant Current() == SetAll(Defaults(ttft, itl, length), found[..i])
        invariant agents >= 1
      {
        assert found[..i + 1][..i] == found[..i];
        Apply(found[i]);
      }
      assert found[..|found|] == found;
    }

    /** The chain of comparisons for one match. */
    method Apply(f: Setting)
      requires AllDigits(f.digits)
      modifies this
      ensures Current() == Set(old(Current()), f)
      ensures old(agents) >= 1 ==> agents >= 1
    {
      var n := Number(f.digits);
      if f.name == "ttft" {
        ttftMs := n;
      } else if f.name == "itl" {
        itlMs := n;
      } else if f.name == "len" {
        tokens := n;
      } else if f.name == "tools" {
        autoTools := n;
      } else if f.name == "agents" {
        agents := if n > 1 then n else 1;
      } else if f.name == "maxctx" {
        maxContext := n;
      }
    }
  }

  // ---------------------------------------------------------------- knobs: a later setting wins

  function Written(f: Setting): string { "-" + f.name + f.digits }

  predicate LackDash(names: seq<string>) {
    forall i | 0 <= i < |names| :: '-' !in names[i]
  }

  /** What follows a dash never reaches over the next dash. */
  lemma {:induction false} SettingEndsBeforeDash(s: string, t: string, name: string)
    requires t == "" || t[0] == '-'
    requires '-' !in name
    ensures StartsSetting(s + t, name) <==> StartsSetting(s, name)
  {
    if |name| < |s| {
      assert (s + t)[..|name|] == s[..|name|];
    } else if |name| < |s + t| {
      assert (s + t)[|s|] == '-';
      assert |s| < |name| ==> (s + t)[..|name|][|s|] == '-';
    }
  }

  lemma {:induction false} KnobAtIgnoresNext(names: seq<string>, s: string, t: string)
    requires LackDash(names) && (t == "" || t[0] == '-')
    ensures KnobAt(names, s + t) == KnobAt(names, s)
  {
    if names != [] {
      SettingEndsBeforeDash(s, t, names[0]);
      KnobAtIgnoresNext(names[1..], s, t);
    }
  }

  lemma {:induction false} DigitRunIgnoresNext(s: string, t: string)
    requires t == "" || t[0] == '-'
    ensures DigitRun(s + t) == DigitRun(s)
  {
    if s == "" {
      assert s + t == t;
    } else {
      assert (s + t)[1..] == s[1..] + t;
      DigitRunIgnoresNext(s[1..], t);
    }
  }

  lemma {:induction false} NextMatchIgnoresNext(names: seq<string>, s: string, t: string)
    requires LackDash(names) && s != "" && (t == "" || t[0] == '-')
    ensures NextMatch(names, s + t) == NextMatch(names, s)
  {
    DropOfJoined(s, t, 1);
    KnobAtIgnoresNext(names, s[1..], t);
    var at := if s[0] == '-' then KnobAt(names, s[1..]) else None;
    if at.Some? {
      var m := 1 + |at.value|;
      DropOfJoined(s, t, m);
      MatchIgnoresNext(at.value, s[m..], t);
    }
  }

  lemma {:induction false} MatchIgnoresNext(name: string, rest: string, t: string)
    requires t == "" || t[0] == '-'
    ensures MatchOf(name, rest + t) == MatchOf(name, rest)
  {
    DigitRunIgnoresNext(rest, t);
    var n := DigitRun(rest);
    assert (rest + t)[..n] == rest[..n];
  }

  /** Where a setting starts, what is found in two parts joined is what is found in each. */
  lemma {:induction false} FindAllSplits(names: seq<string>, s: string, t: string)
    requires LackDash(names) && (t == "" || t[0] == '-')
    ensures FindAll(names, s + t) == FindAll(names, s) + FindAll(names, t)
    decreases |s|
  {
    if s == "" {
      assert s + t == t;
      assert [] + FindAll(names, t) == FindAll(names, t);
    } else {
      var (found, n) := NextMatch(names, s);
      NextMatchIgnoresNext(names, s, t);
      FindAllUnfolds(names, s, found, n);
      FindAllUnfolds(names, s + t, found, n);
      DropOfJoined(s, t, n);
      FindAllSplits(names, s[n..], t);
      Associative(found, FindAll(names, s[n..]), FindAll(names, t));
    }
  }

  lemma {:induction false} Associative(a: seq<Setting>, b: seq<Setting>, c: seq<Setting>)
    ensures a + (b + c) == (a + b) + c
  {
  }

  lemma {:induction false} DropOfJoined(s: string, t: string, n: nat)
    requires n <= |s|
    ensures (s + t)[n..] == s[n..] + t
  {
  }

  lemma {:induction false} FindAllUnfolds(names: seq<string>, s: string, found: seq<Setting>, n: nat)
    requires s != "" && (found, n) == NextMatch(names, s)
    ensures FindAll(names, s) == found + FindAll(names, s[n..])
  {
  }

  /** No name with digits after it is also another name with a digit after it. */
  predicate Unambiguous(names: seq<string>, name: string, digits: string) {
    forall i | 0 <= i < |names| && names[i] != name :: !StartsSetting(name + digits, names[i])
  }

  lemma {:induction false} KnobAtFinds(names: seq<string>, name: string, digits: string)
    requires name in names && Unambiguous(names, name, digits)
    requires digits != "" && AllDigits(digits)
    ensures KnobAt(names, name + digits) == Some(name)
  {
    assert StartsSetting(name + digits, name);
    if names[0] != name {
      KnobAtFinds(names[1..], name, digits);
    }
  }

  lemma {:induction false} FindAllOne(names: seq<string>, f: Setting)
    requires f.name in names && f.digits != "" && AllDigits(f.digits) && Unambiguous(names, f.name, f.digits)
    ensures FindAll(names, Written(f)) == [f]
  {
    var s := Written(f);
    var m := 1 + |f.name|;
    assert s[1..] == f.name + f.digits;
    KnobAtFinds(names, f.name, f.digits);
    assert s[m..] == f.digits;
    DigitRunAll(f.digits);
    assert f.digits[..|f.digits|] == f.digits;
    assert NextMatch(names, s) == ([f], |s|);
    assert s[|s|..] == "";
  }

  lemma {:induction false} KnobNamesLackDash()
    ensures LackDash(KNOB_NAMES)
  {
  }

  lemma {:induction false} KnobNamesDiffer(name: string, digits: string)
    requires name in KNOB_NAMES
    requires digits != "" && AllDigits(digits)
    ensures Unambiguous(KNOB_NAMES, name, digits)
  {
    assert (name + digits)[0] == name[0] && (name + digits)[1] == name[1];
  }

  lemma {:induction false} DigitRunAll(s: string)
    requires AllDigits(s)
    ensures DigitRun(s) == |s|
  {
    if s != "" {
      DigitRunAll(s[1..]);
    }
  }

  /**
   Writing one more setting at the end of any model name changes that knob to that value and no
   other: whatever the name held before.
   */
  lemma {:induction false} LastSettingWins(v: Values, model: string, f: Setting)
    requires f.name in KNOB_NAMES && f.digits != "" && AllDigits(f.digits)
    ensures SetAll(v, FindAll(KNOB_NAMES, model + Written(f))) == Set(SetAll(v, FindAll(KNOB_NAMES, model)), f)
  {
    KnobNamesLackDash();
    KnobNamesDiffer(f.name, f.digits);
    FindAllSplits(KNOB_NAMES, model, Written(f));
    FindAllOne(KNOB_NAMES, f);
    SetAllSnoc(v, FindAll(KNOB_NAMES, model), f);
  }

  lemma {:induction false} SetAllSnoc(v: Values, fs: seq<Setting>, f: Setting)
    requires forall g | g in fs + [f] :: AllDigits(g.digits)
    ensures SetAll(v, fs + [f]) == Set(SetAll(v, fs), f)
  {
    assert (fs + [f])[..|fs|] == fs;
  }

  // ---------------------------------------------------------------- requests

  const RETRIEVAL_TOOLS: seq<string> := ["internal_search", "web_search", "open_url"]
  const RESEARCH_AGENT := "research_agent"
  const GENERATE_REPORT := "generate_report"
  const GENERATE_PLAN := "generate_plan"

  /** A tool definition; its schema only matters to argument synthesis. */
  datatype Tool = Tool(name: string, parameters: string)

  /** A part of multimodal content holds text, or something else. */
  datatype Content = NoContent | Plain(text: string) | Parts(parts: seq<Option<string>>)

  datatype Message = Message(role: string, content: Content, called: seq<string>)

  /** `tool_choice`: missing, a word, or an object that may lack a function name. */
  datatype ToolChoice = Unset | Word(word: string) | Forced(name: Option<string>)

  datatype Request = Request(
    messages: seq<Message>,
    tools: seq<Tool>,
    choice: ToolChoice,
    maxTokens: Option<int>,
    maxCompletionTokens: Option<int>)

  /** A call as decided: the tool, and the text its arguments are made from. */
  datatype Call = Call(tool: Tool, text: string)

  function FirstText(parts: seq<Option<string>>): Option<string> {
    if parts == [] then None else if parts[0].Some? then parts[0] else FirstText(parts[1..])
  }

  function ContentText(c: Content): Option<string> {
    match c
    case NoContent => None
    case Plain(text) => Some(text)
    case Parts(parts) => FirstText(parts)
  }

  function LastUserText(messages: seq<Message>): string {
    if messages == [] then "load test query"
    else
      var m := messages[|messages| - 1];
      if m.role == "user" && ContentText(m.content).Some? then ContentText(m.content).value
      else LastUserText(messages[..|messages| - 1])
  }

  function Snippet(messages: seq<Message>): string {
    var text := LastUserText(messages);
    if |text| <= 200 then text else text[..200]
  }

  /** The dictionary from names to tools: the last definition of a name stays. */
  function ByName(tools: seq<Tool>, name: string): (r: Option<Tool>)
    ensures r.Some? ==> r.value in tools && r.value.name == name
    ensures r.None? ==> forall t | t in tools :: t.name != name
  {
    if tools == [] then None
    else if tools[|tools| - 1].name == name then Some(tools[|tools| - 1])
    else ByName(tools[..|tools| - 1], name)
  }

  predicate Offered(tools: seq<Tool>, name: string) { ByName(tools, name).Some? }

  predicate CallsOneOf(m: Message, names: seq<string>) {
    m.role == "assistant" && exists c | c in m.called :: c in names
  }

  predicate AssistantCalled(messages: seq<Message>, names: seq<string>) {
    exists i | 0 <= i < |messages| :: CallsOneOf(messages[i], names)
  }

  predicate HasToolResult(messages: seq<Message>) {
    exists i | 0 <= i < |messages| :: messages[i].role == "tool"
  }

  /** The offered tools among `names`, in the order of `names`. */
  function Available(tools: seq<Tool>, names: seq<string>): (r: seq<Tool>)
    ensures |r| <= |names|
    ensures forall t | t in r :: t in tools && t.name in names
    ensures r == [] <==> forall n | n in names :: !Offered(tools, n)
  {
    if names == [] then []
    else
      var rest := Available(tools, names[1..]);
      match ByName(tools, names[0])
      case Some(t) => [t] + rest
      case None => rest
  }

  function AgentCalls(tool: Tool, snippet: string, n: nat): (r: seq<Call>)
    ensures |r| == n && forall c | c in r :: c.tool == tool
  {
    seq(n, i requires 0 <= i < n => Call(tool, "research aspect " + Text.Decimal(i + 1) + ": " + snippet))
  }

  function Calls(tools: seq<Tool>, text: string): (r: seq<Call>)
    ensures |r| == |tools|
    ensures forall i | 0 <= i < |r| :: r[i].tool == tools[i]
  {
    seq(|tools|, i requires 0 <= i < |tools| => Call(tools[i], text))
  }

  function PickRequired(tools: seq<Tool>, messages: seq<Message>, agents: nat): seq<Call>
    requires tools != []
  {
    var text := Snippet(messages);
    var agent, report := ByName(tools, RESEARCH_AGENT), ByName(tools, GENERATE_REPORT);
    var retrieval := Available(tools, RETRIEVAL_TOOLS);
    if agent.Some? && !AssistantCalled(messages, [RESEARCH_AGENT]) then AgentCalls(agent.value, text, agents)
    else if agent.Some? && report.Some? then [Call(report.value, text)]
    else if retrieval != [] && !AssistantCalled(messages, RETRIEVAL_TOOLS) then [Call(retrieval[0], text)]
    else if report.Some? then [Call(report.value, text)]
    else [Call(tools[0], text)]
  }

  function PickAuto(tools: seq<Tool>, messages: seq<Message>, autoTools: nat): seq<Call>
    requires tools != []
  {
    var text := Snippet(messages);
    var plan := ByName(tools, GENERATE_PLAN);
    if plan.Some? then [Call(plan.value, text)]
    else if autoTools > 0 && !HasToolResult(messages) then
      var retrieval := Available(tools, RETRIEVAL_TOOLS);
      var chosen := if |retrieval| <= autoTools then retrieval else retrieval[..autoTools];
      Calls(if chosen == [] then [tools[0]] else chosen, text)
    else []
  }

  predicate SaysNone(r: Request) {
    r.choice == Word("none") || r.tools == []
  }

  /** `_pick_tool`: a forced function that is not offered is a client error. */
  function PickTool(r: Request, autoTools: nat, agents: nat): Result<seq<Call>> {
    match r.choice
    case Forced(name) =>
      if name.None? || name.value == "" || !Offered(r.tools, name.value) then Err("Invalid 'tool_choice'")
      else Ok([Call(ByName(r.tools, name.value).value, Snippet(r.messages))])
    case _ =>
      if SaysNone(r) then Ok([])
      else if r.choice == Word("required") then Ok(PickRequired(r.tools, r.messages, agents))
      else Ok(PickAuto(r.tools, r.messages, autoTools))
  }

  // ---------------------------------------------------------------- what the chooser guarantees

  predicate AllOffered(calls: seq<Call>, tools: seq<Tool>) {
    forall i | 0 <= i < |calls| :: calls[i].tool in tools
  }

  lemma {:induction false} RequiredIsOffered(tools: seq<Tool>, messages: seq<Message>, agents: nat)
    requires tools != []
    ensures AllOffered(PickRequired(tools, messages, agents), tools)
  {
    var retrieval := Available(tools, RETRIEVAL_TOOLS);
    if retrieval != [] {
      assert retrieval[0] in retrieval;
    }
  }

  lemma {:induction false} AutoIsOffered(tools: seq<Tool>, messages: seq<Message>, autoTools: nat)
    requires tools != []
    ensures AllOffered(PickAuto(tools, messages, autoTools), tools)
  {
    var retrieval := Available(tools, RETRIEVAL_TOOLS);
    assert forall i | 0 <= i < |retrieval| :: retrieval[i] in retrieval;
  }

  /** No choice and no history makes the mock call a tool that was not offered. */
  lemma {:induction false} OnlyOfferedToolsAreCalled(r: Request, autoTools: nat, agents: nat)
    ensures PickTool(r, autoTools, agents).Ok? ==> AllOffered(PickTool(r, autoTools, agents).value, r.tools)
  {
    if r.tools != [] {
      RequiredIsOffered(r.tools, r.messages, agents);
      AutoIsOffered(r.tools, r.messages, autoTools);
    }
  }

  /** Exactly when the mock answers with text instead of calling something. */
  lemma {:induction false} TextIff(r: Request, autoTools: nat, agents: nat)
    requires agents >= 1
    ensures PickTool(r, autoTools, agents) == Ok([]) <==>
              && !r.choice.Forced?
              && (|| SaysNone(r)
                  || (&& r.choice != Word("required")
                      && !Offered(r.tools, GENERATE_PLAN)
                      && (autoTools == 0 || HasToolResult(r.messages))))
  {
  }

  /** The history after the calls of one cycle are recorded, followed by anything else. */
  function Extended(messages: seq<Message>, calls: seq<Call>, more: seq<Message>): seq<Message> {
    messages + [Message("assistant", NoContent, seq(|calls|, i requires 0 <= i < |calls| => calls[i].tool.name))] + more
  }

  /** The history before cycle `k`, `more[i]` being what the client adds after cycle `i`. */
  function HistoryAt(r: Request, agents: nat, more: seq<seq<Message>>, k: nat): seq<Message>
    requires r.tools != [] && k <= |more|
  {
    if k == 0 then r.messages
    else
      var before := HistoryAt(r, agents, more, k - 1);
      Extended(before, PickRequired(r.tools, before, agents), more[k - 1])
  }

  lemma {:induction false} CalledStaysCalled(messages: seq<Message>, calls: seq<Call>, more: seq<Message>,
                                             names: seq<string>)
    ensures AssistantCalled(messages, names) ==> AssistantCalled(Extended(messages, calls, more), names)
    ensures (exists c | c in calls :: c.tool.name in names) ==> AssistantCalled(Extended(messages, calls, more), names)
  {
    var after := Extended(messages, calls, more);
    if AssistantCalled(messages, names) {
      var i :| 0 <= i < |messages| && CallsOneOf(messages[i], names);
      assert after[i] == messages[i];
    }
    if c :| c in calls && c.tool.name in names {
      var j :| 0 <= j < |calls| && calls[j] == c;
      var m := after[|messages|];
      assert m.called[j] == c.tool.name;
      assert CallsOneOf(m, names);
    }
  }

  /** Everything a REQUIRED choice wants called before the report has been called. */
  predicate Prepared(tools: seq<Tool>, messages: seq<Message>) {
    if Offered(tools, RESEARCH_AGENT) then AssistantCalled(messages, [RESEARCH_AGENT])
    else Available(tools, RETRIEVAL_TOOLS) == [] || AssistantCalled(messages, RETRIEVAL_TOOLS)
  }

  /** The report is called exactly when the preparation is done. */
  lemma {:induction false} ReportIffPrepared(tools: seq<Tool>, messages: seq<Message>, agents: nat)
    requires Offered(tools, GENERATE_REPORT) && agents >= 1
    ensures Prepared(tools, messages) <==>
              PickRequired(tools, messages, agents) == [Call(ByName(tools, GENERATE_REPORT).value, Snippet(messages))]
  {
    var retrieval := Available(tools, RETRIEVAL_TOOLS);
    var calls := PickRequired(tools, messages, agents);
    if !Prepared(tools, messages) {
      if Offered(tools, RESEARCH_AGENT) {
        assert calls[0].tool.name == RESEARCH_AGENT;
      } else {
        assert retrieval[0] in retrieval;
        assert calls[0].tool.name in RETRIEVAL_TOOLS;
      }
    }
  }

  lemma {:induction false} OneCyclePrepares(tools: seq<Tool>, messages: seq<Message>, agents: nat, more: seq<Message>)
    requires tools != [] && agents >= 1
    ensures Prepared(tools, Extended(messages, PickRequired(tools, messages, agents), more))
  {
    var calls := PickRequired(tools, messages, agents);
    var retrieval := Available(tools, RETRIEVAL_TOOLS);
    CalledStaysCalled(messages, calls, more, [RESEARCH_AGENT]);
    CalledStaysCalled(messages, calls, more, RETRIEVAL_TOOLS);
    if !Prepared(tools, messages) {
      if Offered(tools, RESEARCH_AGENT) {
        assert calls[0].tool.name in [RESEARCH_AGENT];
      } else {
        assert retrieval[0] in retrieval;
        assert calls[0].tool.name in RETRIEVAL_TOOLS;
      }
    }
  }

  /**
   A REQUIRED conversation that offers the report: whatever the history was and whatever the
   client adds between cycles, every cycle after the first calls the report and nothing else,
   so the agents or the search are called in the first cycle only.
   */
  lemma {:induction false} ReportWithinTwoCycles(r: Request, agents: nat, more: seq<seq<Message>>, k: nat)
    requires Offered(r.tools, GENERATE_REPORT) && agents >= 1
    requires 1 <= k <= |more|
    ensures var h := HistoryAt(r, agents, more, k);
            PickRequired(r.tools, h, agents) == [Call(ByName(r.tools, GENERATE_REPORT).value, Snippet(h))]
  {
    var before := HistoryAt(r, agents, more, k - 1);
    OneCyclePrepares(r.tools, before, agents, more[k - 1]);
    ReportIffPrepared(r.tools, HistoryAt(r, agents, more, k), agents);
  }

  /** An AUTO conversation without a plan to make calls nothing once a tool result was ever recorded. */
  lemma {:induction false} AutoStopsAfterResults(r: Request, more: seq<Message>, autoTools: nat, agents: nat)
    requires !r.choice.Forced? && r.choice != Word("required")
    requires !Offered(r.tools, GENERATE_PLAN) && HasToolResult(r.messages)
    ensures PickTool(r.(messages := r.messages + more), autoTools, agents) == Ok([])
  {
    var i :| 0 <= i < |r.messages| && r.messages[i].role == "tool";
    assert (r.messages + more)[i].role == "tool";
  }

  // ---------------------------------------------------------------- the request handler

  const FILLER_A := ["This", "is", "deterministic", "mock", "answer"]
  const FILLER_B := ["content", "used", "only", "for", "load"]
  const FILLER_C := ["testing", "the", "Onyx", "application", "and"]
  const FILLER_D := ["infrastructure", "under"]
  const FILLER_E := ["controlled", "conditions."]

  const FILLER_WORDS: seq<string> := FILLER_A + FILLER_B + FILLER_C + FILLER_D + FILLER_E

  predicate AllWords(words: seq<string>) { forall i | 0 <= i < |words| :: IsWord(words[i]) }

  lemma {:induction false} AllWordsA()
    ensures AllWords(FILLER_A)
  {
  }

  lemma {:induction false} AllWordsB()
    ensures AllWords(FILLER_B)
  {
  }

  lemma {:induction false} AllWordsC()
    ensures AllWords(FILLER_C)
  {
  }

  lemma {:induction false} AllWordsD()
    ensures AllWords(FILLER_D)
  {
  }

  lemma {:induction false} AllWordsE()
    ensures AllWords(FILLER_E)
  {
  }

  const ECHO_MARKER := "reformulates the last user message"

  predicate Holds(s: string, part: string) {
    exists i | 0 <= i <= |s| :: part <= s[i..]
  }

  predicate IsEchoFlow(messages: seq<Message>) {
    exists i | 0 <= i < |messages| ::
      messages[i].role == "system" && messages[i].content.Plain? && Holds(messages[i].content.text, ECHO_MARKER)
  }

  function EchoAnswer(messages: seq<Message>): string {
    var text := LastUserText(messages);
    if |text| <= 300 then text else text[|text| - 300..]
  }

  function Filler(n: nat): seq<string> {
    seq(n, i requires 0 <= i < n => FILLER_WORDS[i % |FILLER_WORDS|])
  }

  /** `max_tokens or max_completion_tokens`: a zero counts as missing. */
  function EffectiveMaxTokens(r: Request): Option<int> {
    if r.maxTokens.Some? && r.maxTokens.value != 0 then r.maxTokens else r.maxCompletionTokens
  }

  function CappedTokens(r: Request, tokens: nat): nat {
    match EffectiveMaxTokens(r)
    case None => tokens
    case Some(cap) =>
      var atLeastOne := if cap > 1 then cap else 1;
      if tokens < atLeastOne then tokens else atLeastOne
  }

  function PromptChars(messages: seq<Message>): nat {
    if messages == [] then 0
    else
      var text := ContentText(messages[|messages| - 1].content);
      PromptChars(messages[..|messages| - 1]) + (if text.Some? then |text.value| else 0) + 4
  }

  /** What the handler settles on before it sends anything. */
  datatype Decision =
    | ContextWindowError(limit: nat, used: nat)
    | BadRequest
    | Answer(reply: Reply, finish: string, completionTokens: nat)

  /** Argument synthesis and call ids, which the model leaves open. */
  type Arguments = Call -> string
  type Ids = nat -> string

  function ToolCalls(calls: seq<Call>, arguments: Arguments, ids: Ids): seq<ToolCall> {
    seq(|calls|, i requires 0 <= i < |calls| => ToolCall(ids(i), calls[i].tool.name, arguments(calls[i])))
  }

  function TextFor(r: Request, tokens: nat): string {
    if IsEchoFlow(r.messages) then EchoAnswer(r.messages) else Text.Join(Filler(CappedTokens(r, tokens)), ' ')
  }

  function TokensFor(r: Request, tokens: nat): nat {
    if IsEchoFlow(r.messages) then |Words(EchoAnswer(r.messages))| else CappedTokens(r, tokens)
  }

  function Decide(r: Request, v: Values, arguments: Arguments, ids: Ids): Decision {
    var used := PromptChars(r.messages) / 4;
    if v.maxContext > 0 && used > v.maxContext then ContextWindowError(v.maxContext, used)
    else
      match PickTool(r, v.autoTools, v.agents)
      case Err(_) => BadRequest
      case Ok(calls) =>
        if calls != [] then Answer(CallReply(ToolCalls(calls, arguments, ids)), "tool_calls", 20)
        else Answer(TextReply(TextFor(r, v.tokens)), "stop", TokensFor(r, v.tokens))
  }

  /** The reported completion tokens are the words of the answer, whichever way it was made up. */
  lemma {:induction false} ReportedTokensAreWords(r: Request, tokens: nat)
    ensures |Words(TextFor(r, tokens))| == TokensFor(r, tokens)
  {
    if !IsEchoFlow(r.messages) {
      AllWordsA();
      AllWordsB();
      AllWordsC();
      AllWordsD();
      AllWordsE();
      var n := CappedTokens(r, tokens);
      WordsOfJoined(Filler(n));
    }
  }

  /**
   The handler: both ways of answering one request. The client of the stream ends up with the
   calls of the whole reply, or its words, one content chunk for each reported token.
   */
  method ChatCompletions(model: string, r: Request, ttft: nat, itl: nat, length: nat, arguments: Arguments, ids: Ids)
    returns (whole: Decision, events: seq<Event>)
    ensures whole == Decide(r, SetAll(Defaults(ttft, itl, length), FindAll(KNOB_NAMES, model)), arguments, ids)
    ensures whole.Answer? ==> WellFramed(events, whole.finish) && Assembled(events).finishes == [whole.finish]
    ensures whole.Answer? && whole.reply.CallReply? ==>
              Listed(Assembled(events).calls, |whole.reply.calls|) == whole.reply.calls
    ensures whole.Answer? && whole.reply.TextReply? ==>
              && Words(Assembled(events).content) == Words(whole.reply.answer)
              && ContentChunks(events) == whole.completionTokens
    ensures !whole.Answer? ==> events == []
  {
    var knobs := new Knobs(model, ttft, itl, length);
    var v := knobs.Current();
    whole := Decide(r, v, arguments, ids);
    events := [];
    if whole.Answer? {
      if whole.reply.TextReply? {
        ReportedTokensAreWords(r, v.tokens);
      }
      events := Generate(whole.reply);
    }
  }
}
