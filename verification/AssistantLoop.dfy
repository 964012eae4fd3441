// The bounded question-answering loop: a language model that may ask for tools,
// a budget of tool steps, and one forced answer when the budget runs out
// (backend/wavr/assistant_engine.py).
module AssistantLoop {
  import opened Prelude
  import opened Text

  // -- A model's reply, line by line ---------------------------------------------

  // The arguments written after a tool's name on its line.
  datatype ArgText = NoArgs | JsonObject(args: string) | OtherJson | NotJson

  // What a line of a reply is: a well-formed TOOL: directive, an ANSWER: line with
  // the text after it, or anything else.
  datatype LineKind = ToolLine(name: string, args: ArgText) | AnswerLine(rest: string) | Prose
  datatype Line = Line(text: string, kind: LineKind)

  // A reply, stripped, and the lines it splits into.
  datatype Reply = Reply(raw: string, lines: seq<Line>)

  datatype Args = EmptyArgs | Given(args: string)

  function ParseArgs(a: ArgText): Args {
    match a
    case JsonObject(s) => Given(s)
    case _ => EmptyArgs
  }

  predicate HasTool(r: seq<Line>) {
    exists i | 0 <= i < |r| :: r[i].kind.ToolLine?
  }

  // The first TOOL: line, whatever stands around it.
  function FirstTool(r: seq<Line>): (t: Option<(string, Args)>) {
    if |r| == 0 then None
    else if r[0].kind.ToolLine? then Some((r[0].kind.name, ParseArgs(r[0].kind.args)))
    else FirstTool(r[1..])
  }

  ghost predicate IsFirstTool(r: seq<Line>, i: nat) {
    i < |r| && r[i].kind.ToolLine? && forall j | 0 <= j < i :: !r[j].kind.ToolLine?
  }

  // The arguments of that line: what it holds when that is a JSON object, else none.
  ghost predicate CallOf(t: Option<(string, Args)>, line: Line) {
    && line.kind.ToolLine? && t.Some? && t.value.0 == line.kind.name
    && (line.kind.args.JsonObject? ==> t.value.1 == Given(line.kind.args.args))
    && (!line.kind.args.JsonObject? ==> t.value.1 == EmptyArgs)
  }

  lemma FirstToolShifts(r: seq<Line>, i: nat)
    requires |r| > 0 && !r[0].kind.ToolLine? && IsFirstTool(r, i)
    ensures i > 0 && IsFirstTool(r[1..], i - 1) && r[1..][i - 1] == r[i]
  {
    forall j | 0 <= j < i - 1 ensures !r[1..][j].kind.ToolLine? { assert r[1..][j] == r[j + 1]; }
  }

  // It is the first, and there is none only when no line is one.
  lemma {:induction false} FirstToolIsFirst(r: seq<Line>)
    ensures FirstTool(r).Some? <==> HasTool(r)
    ensures forall i: nat | IsFirstTool(r, i) :: CallOf(FirstTool(r), r[i])
  {
    if |r| > 0 && !r[0].kind.ToolLine? {
      FirstToolIsFirst(r[1..]);
      if HasTool(r) {
        var i :| 0 <= i < |r| && r[i].kind.ToolLine?;
        assert r[1..][i - 1].kind.ToolLine?;
      }
      if HasTool(r[1..]) {
        var i :| 0 <= i < |r[1..]| && r[1..][i].kind.ToolLine?;
        assert r[i + 1].kind.ToolLine?;
      }
      forall i: nat | IsFirstTool(r, i) ensures CallOf(FirstTool(r), r[i]) { FirstToolShifts(r, i); }
    } else if |r| > 0 {
      assert r[0].kind.ToolLine?;
    }
  }

  // The scan stops at it.
  method FindToolCall(r: seq<Line>) returns (t: Option<(string, Args)>)
    ensures t == FirstTool(r)
    ensures t.None? <==> !HasTool(r)
    ensures forall i: nat | IsFirstTool(r, i) :: CallOf(t, r[i])
  {
    FirstToolIsFirst(r);
    for i := 0 to |r|
      invariant FirstTool(r) == FirstTool(r[i..])
    {
      if r[i].kind.ToolLine? { return Some((r[i].kind.name, ParseArgs(r[i].kind.args))); }
      assert r[i..][1..] == r[i + 1..];
    }
    t := None;
  }

  function Texts(r: seq<Line>): (s: seq<string>)
    ensures |s| == |r| && forall i | 0 <= i < |r| :: s[i] == r[i].text
  {
    if |r| == 0 then [] else [r[0].text] + Texts(r[1..])
  }

  function FromAnswer(r: seq<Line>): (s: seq<string>) {
    if |r| == 0 then []
    else if r[0].kind.AnswerLine? then [r[0].kind.rest] + Texts(r[1..])
    else FromAnswer(r[1..])
  }

  // The lines from the first ANSWER: line on are kept, those before it dropped.
  lemma {:induction false} AnswerDropsOnlyPreamble(r: seq<Line>, i: nat)
    requires i < |r| && r[i].kind.AnswerLine? && forall j | 0 <= j < i :: !r[j].kind.AnswerLine?
    ensures FromAnswer(r) == [r[i].kind.rest] + Texts(r[i + 1..])
  {
    if i > 0 {
      assert r[1..][i - 1] == r[i] && r[1..][i..] == r[i + 1..];
      forall j | 0 <= j < i - 1 ensures !r[1..][j].kind.AnswerLine? { assert r[1..][j] == r[j + 1]; }
      AnswerDropsOnlyPreamble(r[1..], i - 1);
    }
  }

  // The first ANSWER: line's text and everything after it, or the whole reply.
  function AnswerOf(r: Reply): (s: string) {
    if |FromAnswer(r.lines)| > 0 then Strip(Join(FromAnswer(r.lines), '\n')) else r.raw
  }

  ghost predicate IsFirstAnswer(r: seq<Line>, i: nat) {
    i < |r| && r[i].kind.AnswerLine? && forall j | 0 <= j < i :: !r[j].kind.AnswerLine?
  }

  // The answer a reply gives: from its first ANSWER: line on, without the marker and
  // stripped; all of it when it has no such line.
  ghost function Said(r: Reply): (answer: string) {
    if exists i: nat :: IsFirstAnswer(r.lines, i) then
      var i: nat :| IsFirstAnswer(r.lines, i);
      Strip(Join([r.lines[i].kind.rest] + Texts(r.lines[i + 1..]), '\n'))
    else r.raw
  }

  // There is at most one such line, and one whenever any line is an ANSWER: line.
  lemma SaidExactly(r: Reply, i: nat)
    ensures IsFirstAnswer(r.lines, i) ==>
              Said(r) == Strip(Join([r.lines[i].kind.rest] + Texts(r.lines[i + 1..]), '\n'))
    ensures (forall j | 0 <= j < |r.lines| :: !r.lines[j].kind.AnswerLine?) ==> Said(r) == r.raw
    ensures (exists j: nat :: IsFirstAnswer(r.lines, j)) <==>
              exists j | 0 <= j < |r.lines| :: r.lines[j].kind.AnswerLine?
  {
    if j :| 0 <= j < |r.lines| && r.lines[j].kind.AnswerLine? { var k := LeastAnswer(r.lines, j); }
    if IsFirstAnswer(r.lines, i) {
      forall k: nat | IsFirstAnswer(r.lines, k) ensures k == i {}
    }
  }

  lemma {:induction false} LeastAnswer(r: seq<Line>, j: nat) returns (i: nat)
    requires j < |r| && r[j].kind.AnswerLine?
    ensures IsFirstAnswer(r, i)
  {
    if k: nat :| k < j && r[k].kind.AnswerLine? { i := LeastAnswer(r, k); } else { i := j; }
  }

  lemma AnswerIsSaid(r: Reply)
    ensures AnswerOf(r) == Said(r)
  {
    NoAnswerLine(r.lines);
    if i: nat :| IsFirstAnswer(r.lines, i) {
      SaidExactly(r, i);
      AnswerDropsOnlyPreamble(r.lines, i);
    } else {
      SaidExactly(r, 0);
    }
  }

  lemma {:induction false} NoAnswerLine(r: seq<Line>)
    ensures (forall i | 0 <= i < |r| :: !r[i].kind.AnswerLine?) ==> FromAnswer(r) == []
  {
    if |r| > 0 {
      NoAnswerLine(r[1..]);
      forall i | 0 <= i < |r[1..]| ensures r[1..][i] == r[i + 1] {}
    }
  }

  // -- The loop ---------------------------------------------------------------------

  datatype ToolOutcome = Returned(json: string) | TimedOut | Failed

  datatype Observation =
    | Refused(name: string)
    | Result(text: string)
    | ToolTimedOut(name: string)
    | ToolFailed(name: string)
  datatype Turn = Turn(name: string, args: Args, observation: Observation)

  datatype TraceEntry = Attempt(step: int, name: string, ok: bool) | Final(step: int, forced: bool)

  // What the model is shown: the turns so far, and whether it must answer now.
  datatype Prompt = Prompt(question: string, transcript: seq<Turn>, forced: bool)

  datatype Execution = Execution(step: int, name: string, args: Args)

  const OBSERVATION_MAX_CHARS := 4000

  function Clip(s: string): (r: string)
    ensures |r| <= OBSERVATION_MAX_CHARS && r <= s
  {
    if |s| <= OBSERVATION_MAX_CHARS then s else s[..OBSERVATION_MAX_CHARS]
  }

  // The outside world, one entry per call made: what the model replies (None when
  // the engine itself fails) and what the tool of that step does.
  datatype World = World(generate: nat -> Option<Reply>, tool: nat -> ToolOutcome)

  datatype Limits = Limits(scope: set<string>, tools: set<string>, maxSteps: int)

  predicate Permitted(l: Limits, name: string) { name in l.scope && name in l.tools }

  function Budget(l: Limits): nat { if l.maxSteps > 0 then l.maxSteps else 0 }

  function ToolCallAt(w: World, i: nat): (t: Option<(string, Args)>) {
    if w.generate(i).Some? then FirstTool(w.generate(i).value.lines) else None
  }

  // How many steps the loop spends on tools: the leading replies, within the
  // budget, that hold a TOOL: line.
  function ToolSteps(w: World, i: nat, budget: nat): (n: nat)
    requires i <= budget
    ensures i <= n <= budget
    decreases budget - i
  {
    if i < budget && ToolCallAt(w, i).Some? then ToolSteps(w, i + 1, budget) else i
  }

  lemma {:induction false} ToolStepsExactly(w: World, i: nat, budget: nat)
    requires i <= budget
    ensures forall j | i <= j < ToolSteps(w, i, budget) :: ToolCallAt(w, j).Some?
    ensures ToolSteps(w, i, budget) < budget ==> ToolCallAt(w, ToolSteps(w, i, budget)).None?
    decreases budget - i
  {
    if i < budget && ToolCallAt(w, i).Some? { ToolStepsExactly(w, i + 1, budget); }
  }

  function TurnAt(l: Limits, w: World, i: nat): (t: Turn)
    requires ToolCallAt(w, i).Some?
  {
    var (name, args) := ToolCallAt(w, i).value;
    Turn(name, args,
         if !Permitted(l, name) then Refused(name)
         else match w.tool(i)
              case Returned(json) => Result(Clip(json))
              case TimedOut => ToolTimedOut(name)
              case Failed => ToolFailed(name))
  }

  ghost predicate AllTools(w: World, n: nat) {
    forall i | 0 <= i < n :: ToolCallAt(w, i).Some?
  }

  function Turns(l: Limits, w: World, n: nat): (r: seq<Turn>)
    requires forall i | 0 <= i < n :: ToolCallAt(w, i).Some?
    ensures |r| == n
  {
    if n == 0 then [] else Turns(l, w, n - 1) + [TurnAt(l, w, n - 1)]
  }

  function Attempts(l: Limits, w: World, n: nat): (r: seq<TraceEntry>)
    requires forall i | 0 <= i < n :: ToolCallAt(w, i).Some?
    ensures |r| == n
  {
    if n == 0 then []
    else
      var t := TurnAt(l, w, n - 1);
      Attempts(l, w, n - 1) + [Attempt(n, t.name, t.observation.Result?)]
  }

  function Names(l: Limits, w: World, n: nat): (r: seq<string>)
    requires forall i | 0 <= i < n :: ToolCallAt(w, i).Some?
    ensures |r| == n
  {
    if n == 0 then [] else Names(l, w, n - 1) + [TurnAt(l, w, n - 1).name]
  }

  function Executions(l: Limits, w: World, n: nat): (r: seq<Execution>)
    requires forall i | 0 <= i < n :: ToolCallAt(w, i).Some?
    ensures |r| <= n
  {
    if n == 0 then []
    else
      var t := TurnAt(l, w, n - 1);
      Executions(l, w, n - 1) + (if Permitted(l, t.name) then [Execution(n, t.name, t.args)] else [])
  }

  function Prompts(question: string, l: Limits, w: World, n: nat): (r: seq<Prompt>)
    requires forall i | 0 <= i < n :: ToolCallAt(w, i).Some?
    ensures |r| == n
  {
    if n == 0 then [] else Prompts(question, l, w, n - 1) + [Prompt(question, Turns(l, w, n - 1), false)]
  }

  datatype Answered = Answered(answer: string, trace: seq<TraceEntry>, names: seq<string>)

  // One tool step: refuse, or run the tool under its timeout.
  method Observe(l: Limits, w: World, i: nat) returns (obs: Observation, ran: bool)
    requires ToolCallAt(w, i).Some?
    ensures obs == TurnAt(l, w, i).observation
    ensures ran == Permitted(l, ToolCallAt(w, i).value.0)
  {
    var name := ToolCallAt(w, i).value.0;
    if name !in l.scope || name !in l.tools { return Refused(name), false; }
    ran := true;
    match w.tool(i) {
      case Returned(json) => obs := Result(Clip(json));
      case TimedOut => obs := ToolTimedOut(name);
      case Failed => obs := ToolFailed(name);
    }
  }

  // What the loop holds between two calls.
  datatype Held = Held(transcript: seq<Turn>, trace: seq<TraceEntry>, names: seq<string>,
                       prompts: seq<Prompt>, executed: seq<Execution>)

  ghost function HeldAfter(question: string, l: Limits, w: World, k: nat): (h: Held)
    requires AllTools(w, k)
  {
    Held(Turns(l, w, k), Attempts(l, w, k), Names(l, w, k), Prompts(question, l, w, k), Executions(l, w, k))
  }

  ghost function Step(h: Held, question: string, l: Limits, k: nat, t: Turn): (h': Held) {
    Held(h.transcript + [t], h.trace + [Attempt(k + 1, t.name, t.observation.Result?)], h.names + [t.name],
         h.prompts + [Prompt(question, h.transcript, false)],
         if Permitted(l, t.name) then h.executed + [Execution(k + 1, t.name, t.args)] else h.executed)
  }

  lemma StepAdds(question: string, l: Limits, w: World, k: nat)
    requires AllTools(w, k) && ToolCallAt(w, k).Some?
    ensures AllTools(w, k + 1)
    ensures HeldAfter(question, l, w, k + 1) == Step(HeldAfter(question, l, w, k), question, l, k, TurnAt(l, w, k))
  {
  }

  // For any model and any tools: the loop spends n steps on tools, where n is the
  // length of the leading run of tool replies within the budget, and then makes
  // one call for the answer, forced exactly when the budget is spent. The engine
  // failing at any call is the only way to get no answer.
  method RunAsk(question: string, w: World, l: Limits)
    returns (res: Option<Answered>, prompts: seq<Prompt>, executed: seq<Execution>)
    ensures var n := ToolSteps(w, 0, Budget(l));
            && AllTools(w, n)
            && prompts == Prompts(question, l, w, n) + [Prompt(question, Turns(l, w, n), n == Budget(l))]
            && executed == Executions(l, w, n)
            && (res.None? <==> w.generate(n).None?)
            && (res.Some? ==>
                  && res.value.answer == Said(w.generate(n).value)
                  && res.value.trace == Attempts(l, w, n)
                                        + [Final(if n < Budget(l) then n + 1 else l.maxSteps + 1, n == Budget(l))]
                  && res.value.names == Names(l, w, n))
  {
    var transcript: seq<Turn> := [];
    var trace: seq<TraceEntry> := [];
    var names: seq<string> := [];
    prompts, executed := [], [];
    var step := 1;
    var calls: nat := 0;
    ghost var n := ToolSteps(w, 0, Budget(l));
    while step <= l.maxSteps
      invariant calls == step - 1 && calls <= Budget(l)
      invariant n == ToolSteps(w, calls, Budget(l))
      invariant AllTools(w, calls)
      invariant Held(transcript, trace, names, prompts, executed) == HeldAfter(question, l, w, calls)
    {
      prompts := prompts + [Prompt(question, transcript, false)];
      var raw := w.generate(calls);
      assert ToolCallAt(w, calls).None? ==> n == calls;
      if raw.None? { return None, prompts, executed; }
      var toolCall := FindToolCall(raw.value.lines);
      if toolCall.Some? {
        StepAdds(question, l, w, calls);
        var (name, args) := toolCall.value;
        names := names + [name];
        var obs, ran := Observe(l, w, calls);
        if ran { executed := executed + [Execution(step, name, args)]; }
        trace := trace + [Attempt(step, name, obs.Result?)];
        transcript := transcript + [Turn(name, args, obs)];
        calls := calls + 1;
        step := step + 1;
      } else {
        AnswerIsSaid(raw.value);
        return Some(Answered(AnswerOf(raw.value), trace + [Final(step, false)], names)), prompts, executed;
      }
    }
    prompts := prompts + [Prompt(question, transcript, true)];
    var raw := w.generate(calls);
    if raw.None? { return None, prompts, executed; }
    AnswerIsSaid(raw.value);
    res := Some(Answered(AnswerOf(raw.value), trace + [Final(l.maxSteps + 1, true)], names));
  }

  // -- What that means ------------------------------------------------------------

  // The bounds and the gate, for any model: at most the budget of tools, one more
  // call than that, and nothing executed outside both the scope and the table.
  lemma {:induction false} BoundedAndGated(question: string, l: Limits, w: World, n: nat)
    requires n <= Budget(l) && AllTools(w, n)
    ensures |Executions(l, w, n)| <= n <= Budget(l)
    ensures |Prompts(question, l, w, n)| + 1 <= Budget(l) + 1
    ensures forall e | e in Executions(l, w, n) :: e.name in l.scope && e.name in l.tools && 1 <= e.step <= n
  {
    if n > 0 { BoundedAndGated(question, l, w, n - 1); }
  }

  // The trace is the attempted tools in order: entry i is the tool of the i-th
  // reply, ok exactly when it was permitted and returned.
  lemma {:induction false} TraceIsAttempts(l: Limits, w: World, n: nat, i: nat)
    requires AllTools(w, n) && i < n
    ensures Attempts(l, w, n)[i] == Attempt(i + 1, ToolCallAt(w, i).value.0,
                                            Permitted(l, ToolCallAt(w, i).value.0) && w.tool(i).Returned?)
    ensures Names(l, w, n)[i] == ToolCallAt(w, i).value.0
    ensures Turns(l, w, n)[i] == TurnAt(l, w, i)
  {
    if i < n - 1 { TraceIsAttempts(l, w, n - 1, i); }
  }

  // What the model is told of a call: a refusal, the result cut to the limit, or how it
  // failed.
  lemma ObservedExactly(l: Limits, w: World, i: nat)
    requires ToolCallAt(w, i).Some?
    ensures var (name, args) := ToolCallAt(w, i).value;
            var t := TurnAt(l, w, i);
            && t.name == name && t.args == args
            && (name !in l.scope || name !in l.tools ==> t.observation == Refused(name))
            && (name in l.scope && name in l.tools ==>
                  && (w.tool(i) == TimedOut ==> t.observation == ToolTimedOut(name))
                  && (w.tool(i) == Failed ==> t.observation == ToolFailed(name))
                  && (w.tool(i).Returned? ==>
                        && t.observation.Result? && t.observation.text <= w.tool(i).json
                        && |t.observation.text| == if |w.tool(i).json| < 4000 then |w.tool(i).json| else 4000))
  {
  }

  // A tool that was permitted was executed, and only those.
  lemma {:induction false} ExecutedExactly(l: Limits, w: World, n: nat, i: nat)
    requires AllTools(w, n) && i < n
    ensures var (name, args) := ToolCallAt(w, i).value;
            Execution(i + 1, name, args) in Executions(l, w, n) <==> Permitted(l, name)
  {
    var (name, args) := ToolCallAt(w, i).value;
    if i < n - 1 {
      ExecutedExactly(l, w, n - 1, i);
    } else {
      ExecutionSteps(l, w, n - 1);
    }
  }

  lemma {:induction false} ExecutionSteps(l: Limits, w: World, n: nat)
    requires AllTools(w, n)
    ensures forall e | e in Executions(l, w, n) :: 1 <= e.step <= n
  {
    if n > 0 { ExecutionSteps(l, w, n - 1); }
  }

  // Each prompt shows exactly the turns before it.
  lemma {:induction false} PromptsShowTranscript(question: string, l: Limits, w: World, n: nat, i: nat)
    requires AllTools(w, n) && i < n
    ensures Prompts(question, l, w, n)[i] == Prompt(question, Turns(l, w, n)[..i], false)
  {
    TurnsPrefix(l, w, n, i);
    if i < n - 1 {
      PromptsShowTranscript(question, l, w, n - 1, i);
      TurnsPrefix(l, w, n - 1, i);
    }
  }

  lemma {:induction false} TurnsPrefix(l: Limits, w: World, n: nat, i: nat)
    requires AllTools(w, n) && i <= n
    ensures Turns(l, w, n)[..i] == Turns(l, w, i)
  {
    if i < n {
      TurnsPrefix(l, w, n - 1, i);
      assert Turns(l, w, n)[..i] == Turns(l, w, n - 1)[..i];
    }
  }

  // The answer is forced exactly when every reply the budget paid for held a
  // TOOL: line.
  lemma ForcedExactly(l: Limits, w: World)
    ensures ToolSteps(w, 0, Budget(l)) == Budget(l)
            <==> forall i | 0 <= i < l.maxSteps :: w.generate(i).Some? && HasTool(w.generate(i).value.lines)
    ensures ToolSteps(w, 0, Budget(l)) <= if l.maxSteps < 0 then 0 else l.maxSteps
  {
    ToolStepsExactly(w, 0, Budget(l));
    forall i | 0 <= i < Budget(l)
      ensures ToolCallAt(w, i).Some? <==> w.generate(i).Some? && HasTool(w.generate(i).value.lines)
    {
      if w.generate(i).Some? { FirstToolIsFirst(w.generate(i).value.lines); }
    }
  }

  // -- Which tools an engine may reach -----------------------------------------------

  datatype Engine = WavrAssistant | LocalLlm | OpenAi | Anthropic | Gemini | Manual

  // Whether an engine's own endpoint is a loopback address.
  datatype Endpoints = Endpoints(ollama: bool, localLlm: bool, manual: bool)

  function EngineIsCloud(e: Engine, loopback: Endpoints): (cloud: bool) {
    match e
    case WavrAssistant => !loopback.ollama
    case LocalLlm => !loopback.localLlm
    case Manual => !loopback.manual
    case _ => true
  }

  const AGENT_DEFAULT_TOOL_SCOPE: set<string> :=
    {"list_rooms", "get_room_context", "get_house_status", "get_space_context",
     "explain_room_state", "get_sensor_coverage", "get_core_health"}

  // The dispatch table of the loop.
  const TOOLS: set<string> :=
    {"list_rooms", "get_room_context", "get_house_map", "get_house_status",
     "get_network_inventory", "get_alerts", "query_occupancy_history", "get_ha_entities"}

  const WRITE_TOOL := "call_ha_service"

  function ToolScopeFor(e: Engine, loopback: Endpoints, mcpToolNames: set<string>): (scope: set<string>) {
    if EngineIsCloud(e, loopback) then AGENT_DEFAULT_TOOL_SCOPE else mcpToolNames - {WRITE_TOOL}
  }

  // An engine counts as local only through a loopback endpoint of its own.
  lemma CloudExactly(e: Engine, loopback: Endpoints)
    ensures !EngineIsCloud(e, loopback) <==>
              || (e == WavrAssistant && loopback.ollama) || (e == LocalLlm && loopback.localLlm)
              || (e == Manual && loopback.manual)
  {
  }

  // The scope of a local engine is every tool but the writing one, and it reaches all the
  // tools of the loop there are; a cloud engine's is fixed.
  lemma ScopeExactly(e: Engine, loopback: Endpoints, mcpToolNames: set<string>, tool: string)
    ensures !EngineIsCloud(e, loopback) ==>
              && (tool in ToolScopeFor(e, loopback, mcpToolNames) <==>
                    tool in mcpToolNames && tool != "call_ha_service")
              && (tool in mcpToolNames
                  && tool in {"list_rooms", "get_room_context", "get_house_map", "get_house_status",
                              "get_network_inventory", "get_alerts", "query_occupancy_history", "get_ha_entities"} ==>
                    tool in ToolScopeFor(e, loopback, mcpToolNames) && tool in TOOLS)
    ensures EngineIsCloud(e, loopback) ==>
              ToolScopeFor(e, loopback, mcpToolNames) == ToolScopeFor(e, loopback, {})
  {
    assert |WRITE_TOOL| == 15;
    if tool in TOOLS { assert tool[0] != 'c'; }
  }

  // Whatever a model asks for, the write tool is never executed; and an engine
  // that leaves this box executes nothing but the three current-state reads.
  lemma NoEngineWrites(e: Engine, loopback: Endpoints, mcpToolNames: set<string>, maxSteps: int, w: World, n: nat)
    requires n <= Budget(Limits({}, {}, maxSteps)) && AllTools(w, n)
    ensures var l := Limits(ToolScopeFor(e, loopback, mcpToolNames), TOOLS, maxSteps);
            && (forall x | x in Executions(l, w, n) :: x.name != WRITE_TOOL)
            && (EngineIsCloud(e, loopback) ==>
                  forall x | x in Executions(l, w, n) ::
                     x.name in {"list_rooms", "get_room_context", "get_house_status"})
  {
    var l := Limits(ToolScopeFor(e, loopback, mcpToolNames), TOOLS, maxSteps);
    BoundedAndGated("", l, w, n);
    assert WRITE_TOOL !in TOOLS by {
      assert |WRITE_TOOL| == 15;
      forall t | t in TOOLS ensures t != WRITE_TOOL { assert t[0] != 'c'; }
    }
    assert AGENT_DEFAULT_TOOL_SCOPE * TOOLS <= {"list_rooms", "get_room_context", "get_house_status"} by {
      ScopeMeetsTable();
    }
  }

  lemma ScopeMeetsTable()
    ensures AGENT_DEFAULT_TOOL_SCOPE * TOOLS == {"list_rooms", "get_room_context", "get_house_status"}
  {
    forall t | t in {"get_space_context", "explain_room_state", "get_sensor_coverage", "get_core_health"}
      ensures t !in TOOLS
    {
    }
  }
}
