/** The bounded assistant turn: rust/src/assistant/turn.rs.

    The model, the clock, the decoding of arguments and the services behind the tools are an Oracle
    of arbitrary functions, indexed by how often each was asked, so every statement holds for every
    behaviour of theirs. */
module Turn {
  import opened Wrappers
  import opened Json
  import opened Text
  import opened Budget
  import opened Tools
  import opened Staging
  import opened Policy
  import opened Transcript

  datatype Image = Image(bytes: seq<nat>)

  datatype ModelError = ModelUnavailable | Timeout | Transport | MalformedResponse | ContentFiltered | QuotaExceeded

  datatype ModelOutput = Prose(text: string) | ToolCalls(calls: seq<ProposedToolCall>)

  datatype ModelResponse = ModelResponse(output: ModelOutput, routedModel: Option<string>)

  datatype ActionRecord = ActionRecord(tool: Tool, status: string)

  /** The part of the system instruction that changes during a turn. */
  datatype Instruction = Instruction(history: seq<ActionRecord>, repairing: bool)

  datatype ModelRequest = ModelRequest(
    instruction: Instruction,
    messages: seq<Message>,
    image: Option<Image>,
    tools: seq<ToolSchema>,
    requiredTool: Option<string>)

  datatype TurnError =
    | InvalidQuestion
    | Deadline
    | OverBudget(budget: BudgetError)
    | Rejected(policy: PolicyError)
    | ModelFailed(model: ModelError)

  datatype TurnOutcome = TurnOutcome(
    answer: string,
    citations: seq<string>,
    proposal: Option<Proposal>,
    omissions: seq<string>,
    uncertainties: seq<string>,
    routedModel: Option<string>,
    modelRequests: nat,
    toolCalls: nat)

  /** A call that reached its tool, and what came back. */
  datatype Dispatched = Dispatched(call: ValidatedToolCall, outcome: ToolOutcome)

  /** Everything outside the turn.  The two lengths are those of the fixed part of the system
      instruction and of the repair text. */
  datatype Oracle = Oracle(
    toolbox: Toolbox,
    expired: nat -> bool,
    respond: nat -> Result<ModelResponse, ModelError>,
    services: nat -> Services,
    fixedChars: nat,
    repairChars: nat)

  function ExpiredAt(oracle: Oracle, check: nat): bool {
    oracle.expired(check)
  }

  function ReplyTo(oracle: Oracle, request: nat): Result<ModelResponse, ModelError> {
    oracle.respond(request)
  }

  function ServicesAt(oracle: Oracle, call: nat): Services {
    oracle.services(call)
  }

  const IMAGE_DRAFT_NOT_CREATED_ANSWER := "draft_not_created"

  // ---- the system instruction ----

  function Joined(history: seq<ActionRecord>): string {
    if history == [] then ""
    else
      var last := history[|history| - 1];
      var text := ToolName(last.tool) + ":" + last.status;
      if |history| == 1 then text else Joined(history[..|history| - 1]) + ", " + text
  }

  function FormatActionHistory(history: seq<ActionRecord>): string {
    if history == [] then "none" else Joined(history)
  }

  function InstructionChars(oracle: Oracle, i: Instruction): nat {
    oracle.fixedChars + (if i.repairing then oracle.repairChars else 4) + |FormatActionHistory(i.history)|
  }

  lemma NamesAreLong(tool: Tool)
    ensures |ToolName(tool)| >= |"none"|
  {
  }

  /** One more completed action makes the instruction longer, also where it replaces the word "none". */
  lemma HistoryGrows(history: seq<ActionRecord>, last: ActionRecord)
    ensures |FormatActionHistory(history)| <= |FormatActionHistory(history + [last])|
  {
    NamesAreLong(last.tool);
    assert (history + [last])[..|history|] == history;
    hide ToolName;
  }

  /** More completed actions never make the instruction shorter. */
  lemma {:induction false} HistoryOnlyGrows(oracle: Oracle, history: seq<ActionRecord>, more: seq<ActionRecord>)
    ensures InstructionChars(oracle, Instruction(history, false))
            <= InstructionChars(oracle, Instruction(history + more, false))
  {
    if more == [] {
      assert history + more == history;
    } else {
      var n := |more| - 1;
      assert history + more == (history + more[..n]) + [more[n]];
      HistoryGrows(history + more[..n], more[n]);
      hide FormatActionHistory;
      HistoryOnlyGrows(oracle, history, more[..n]);
    }
  }

  // ---- citations ----

  function ControlId(reference: Json): Option<string> {
    if reference.Object? && "control_id" in reference.members && reference.members["control_id"].String? then
      Some(reference.members["control_id"].text)
    else None
  }

  function References(outcome: ToolOutcome): seq<Json> {
    if outcome.Completed? && outcome.result.Object? && "references" in outcome.result.members
      && outcome.result.members["references"].Array? then
      outcome.result.members["references"].items
    else []
  }

  /** First-cited order, each identifier once. */
  function Cited(citations: seq<string>, references: seq<Json>): seq<string>
    decreases |references|
  {
    if references == [] then citations
    else
      var id := ControlId(references[0]);
      Cited(if id.Some? && id.value !in citations then citations + [id.value] else citations, references[1..])
  }

  method ExtendCitations(citations: seq<string>, outcome: ToolOutcome) returns (r: seq<string>)
    ensures r == Cited(citations, References(outcome))
  {
    r := citations;
    var references := References(outcome);
    for i := 0 to |references|
      invariant Cited(r, references[i..]) == Cited(citations, references)
    {
      assert references[i..][1..] == references[i + 1..];
      var id := ControlId(references[i]);
      if id.Some? && id.value !in r {
        r := r + [id.value];
      }
    }
  }

  predicate AllDistinct(s: seq<string>) {
    forall i, j | 0 <= i < j < |s| :: s[i] != s[j]
  }

  lemma {:induction false} CitedIsDistinctAndComplete(citations: seq<string>, references: seq<Json>)
    requires AllDistinct(citations)
    ensures AllDistinct(Cited(citations, references)) && citations <= Cited(citations, references)
    ensures forall id :: id in Cited(citations, references) <==>
            id in citations || exists r | r in references :: ControlId(r) == Some(id)
    decreases |references|
  {
    if references != [] {
      var id := ControlId(references[0]);
      var next := if id.Some? && id.value !in citations then citations + [id.value] else citations;
      CitedIsDistinctAndComplete(next, references[1..]);
      forall x
        ensures (exists r | r in references :: ControlId(r) == Some(x)) <==>
                id == Some(x) || exists r | r in references[1..] :: ControlId(r) == Some(x)
      {
        if r :| r in references && ControlId(r) == Some(x) {
          assert r == references[0] || r in references[1..];
        }
      }
    }
  }

  // ---- what a turn has gathered ----

  datatype Gathered = Gathered(
    proposal: Option<Proposal>,
    omissions: seq<string>,
    uncertainties: seq<string>,
    history: seq<ActionRecord>,
    citations: seq<string>)

  function Gather(g: Gathered, d: Dispatched): Gathered {
    Gathered(
      if d.outcome.StagedProposal().Some? then d.outcome.StagedProposal() else g.proposal,
      if d.outcome.Staged? then d.outcome.omissions else g.omissions,
      if d.outcome.Staged? then d.outcome.uncertainties else g.uncertainties,
      g.history + [ActionRecord(d.call.definition.tool, d.outcome.HistoryStatus())],
      Cited(g.citations, References(d.outcome)))
  }

  function GatheredFrom(log: seq<Dispatched>): Gathered {
    if log == [] then Gathered(None, [], [], [], [])
    else Gather(GatheredFrom(log[..|log| - 1]), log[|log| - 1])
  }

  lemma GatheredOneMore(log: seq<Dispatched>, d: Dispatched)
    ensures GatheredFrom(log + [d]) == Gather(GatheredFrom(log), d)
  {
    assert (log + [d])[..|log|] == log;
  }

  lemma GatheredStep(before: seq<Dispatched>, log: seq<Dispatched>, d: Dispatched)
    ensures GatheredFrom(before + (log + [d])) == Gather(GatheredFrom(before + log), d)
  {
    assert before + (log + [d]) == before + log + [d];
    GatheredOneMore(before + log, d);
  }

  /** The proposal of a turn is the last one staged, and a turn without one staged none. */
  lemma {:induction false} ProposalIsTheLastStaged(log: seq<Dispatched>)
    ensures var p := GatheredFrom(log).proposal;
            if p.None? then forall d | d in log :: d.outcome.StagedProposal().None?
            else exists i :: 0 <= i < |log| && log[i].outcome.StagedProposal() == p
                             && forall j | i < j < |log| :: log[j].outcome.StagedProposal().None?
  {
    if log != [] {
      var n := |log| - 1;
      ProposalIsTheLastStaged(log[..n]);
      var before := GatheredFrom(log[..n]).proposal;
      if log[n].outcome.StagedProposal().None? && before.Some? {
        var i :| 0 <= i < n && log[..n][i].outcome.StagedProposal() == before
                 && forall j | i < j < n :: log[..n][j].outcome.StagedProposal().None?;
        assert log[i].outcome.StagedProposal() == before;
        assert forall j | i < j < n :: log[j] == log[..n][j];
      } else if log[n].outcome.StagedProposal().None? {
        forall d | d in log
          ensures d.outcome.StagedProposal().None?
        {
          assert d in log[..n] || d == log[n];
        }
      }
    }
  }

  /** Entry i staged last. */
  predicate StagedLast(log: seq<Dispatched>, i: nat) {
    i < |log| && log[i].outcome.Staged? && forall j | i < j < |log| :: !log[j].outcome.Staged?
  }

  ghost predicate NothingStaged(log: seq<Dispatched>) {
    forall i | 0 <= i < |log| :: !log[i].outcome.Staged?
  }

  lemma GatherNotes(g: Gathered, d: Dispatched)
    ensures Gather(g, d).omissions == (if d.outcome.Staged? then d.outcome.omissions else g.omissions)
    ensures Gather(g, d).uncertainties == (if d.outcome.Staged? then d.outcome.uncertainties else g.uncertainties)
    ensures Gather(g, d).history == g.history + [ActionRecord(d.call.definition.tool, d.outcome.HistoryStatus())]
  {
  }

  /** The notes of a turn are those of its last staging call. */
  lemma {:induction false} NotesAreTheLastReported(log: seq<Dispatched>)
    ensures NothingStaged(log) ==> GatheredFrom(log).omissions == [] && GatheredFrom(log).uncertainties == []
    ensures !NothingStaged(log) ==>
            exists i: nat :: StagedLast(log, i) && GatheredFrom(log).omissions == log[i].outcome.omissions
                                                     && GatheredFrom(log).uncertainties == log[i].outcome.uncertainties
  {
    hide Gather;
    if log != [] {
      var n := |log| - 1;
      var before := log[..n];
      NotesAreTheLastReported(before);
      GatherNotes(GatheredFrom(before), log[n]);
      if log[n].outcome.Staged? {
        assert StagedLast(log, n);
      } else if !NothingStaged(before) {
        var i: nat :| StagedLast(before, i) && GatheredFrom(before).omissions == before[i].outcome.omissions
                      && GatheredFrom(before).uncertainties == before[i].outcome.uncertainties;
        assert StagedLast(log, i);
      }
    }
  }

  /** The history lists every dispatched call, in order, with its tool and status. */
  lemma {:induction false} HistoryListsEveryCall(log: seq<Dispatched>)
    ensures |GatheredFrom(log).history| == |log|
    ensures forall i | 0 <= i < |log| ::
            GatheredFrom(log).history[i] == ActionRecord(log[i].call.definition.tool, log[i].outcome.HistoryStatus())
  {
    hide Gather;
    if log != [] {
      var n := |log| - 1;
      HistoryListsEveryCall(log[..n]);
      GatherNotes(GatheredFrom(log[..n]), log[n]);
    }
  }

  /** Citations are the control identifiers of the references that dispatched tools returned, each once. */
  lemma {:induction false} CitationsAreWhatWasRead(log: seq<Dispatched>)
    ensures AllDistinct(GatheredFrom(log).citations)
    ensures forall id :: id in GatheredFrom(log).citations <==>
              exists d, r | d in log && r in References(d.outcome) :: ControlId(r) == Some(id)
  {
    if log != [] {
      var n := |log| - 1;
      var before, last := log[..n], log[n];
      CitationsAreWhatWasRead(before);
      CitedIsDistinctAndComplete(GatheredFrom(before).citations, References(last.outcome));
      hide Cited, References, ControlId, Gather;
      assert log == before + [last];
      assert GatheredFrom(log).citations == Cited(GatheredFrom(before).citations, References(last.outcome)) by {
        GatherCites(GatheredFrom(before), last);
      }
      assert forall d :: d in log <==> d in before || d == last;
    }
  }

  lemma GatherCites(g: Gathered, d: Dispatched)
    ensures Gather(g, d).citations == Cited(g.citations, References(d.outcome))
  {
  }

  // ---- dispatched calls ----

  /** A dispatched call used a tool that was shown to the model, with arguments that were checked, and
      its outcome is that tool's. */
  ghost predicate Legitimate(oracle: Oracle, context: TurnContext, n: nat, d: Dispatched) {
    && IsAcceptableCallId(d.call.id)
    && Exposed(oracle.toolbox, d.call.definition.Name(), context)
    && d.call.definition.IsAvailable(context)
    && (d.call.definition.risk.IsMutating() ==> d.call.definition.Name() in context.confirmedActions)
    && InputTool(d.call.input) == d.call.definition.tool
    && Checked(d.call.input)
    && (d.call.input.StageDraft? && context.classifiedProjectType.Some? ==>
      d.call.input.draft.projectType == context.classifiedProjectType.value)
    && d.outcome == Outcome(ServicesAt(oracle, n), context, d.call.input)
  }

  lemma PermittedIsLegitimate(oracle: Oracle, context: TurnContext, n: nat, call: ProposedToolCall, d: Dispatched)
    requires Permitted(oracle.toolbox, context, call) && d.call == Validated(oracle.toolbox, context, call)
    ensures Checked(d.call.input)
    ensures d.outcome == Outcome(ServicesAt(oracle, n), context, d.call.input) ==> Legitimate(oracle, context, n, d)
  {
    var definition := Find(oracle.toolbox, call.name).value;
    FoundHasName(oracle.toolbox, call.name);
    AvailableIsExposed(oracle.toolbox, call.name, context);
    ParsedInputIsChecked(oracle.toolbox, definition.tool, call.argumentText);
    hide ParseInput, Find, Exposed, Checked, Outcome;
  }

  /** Every entry of the log is legitimate, and no identifier occurs twice. */
  ghost predicate Log(oracle: Oracle, context: TurnContext, log: seq<Dispatched>) {
    && (forall i | 0 <= i < |log| :: Legitimate(oracle, context, i, log[i]))
    && (forall i, j | 0 <= i < j < |log| :: log[i].call.id != log[j].call.id)
  }

  function ResultMessage(oracle: Oracle, n: nat, d: Dispatched): Message {
    ToolResult(d.call.id, d.call.definition.Name(), ToBoundedJson(ServicesAt(oracle, n), d.outcome))
  }

  /** The entries from start on are the calls of this round, and its messages are their results. */
  ghost predicate RoundOf(oracle: Oracle, context: TurnContext, log: seq<Dispatched>, start: nat, r: Round) {
    && start + |r.calls| <= |log| && |r.results| == |r.calls| && 1 <= |r.calls| <= MAX_TOOL_CALLS_PER_RESPONSE
    && forall i | 0 <= i < |r.calls| ::
         && Permitted(oracle.toolbox, context, r.calls[i])
         && log[start + i].call == Validated(oracle.toolbox, context, r.calls[i])
         && r.results[i] == ResultMessage(oracle, start + i, log[start + i])
  }

  function CallCount(rounds: seq<Round>): nat {
    if rounds == [] then 0 else CallCount(rounds[..|rounds| - 1]) + |rounds[|rounds| - 1].calls|
  }

  predicate ProposedBy(oracle: Oracle, k: nat, calls: seq<ProposedToolCall>) {
    ReplyTo(oracle, k).Ok? && ReplyTo(oracle, k).value.output == ModelOutput.ToolCalls(calls)
  }

  /** The rounds are the batches the model proposed, request after request, and the log is their calls
      in order.  `skipped` counts the requests before the first round. */
  ghost predicate RoundsOf(oracle: Oracle, context: TurnContext, log: seq<Dispatched>, rounds: seq<Round>, skipped: nat)
    decreases |rounds|
  {
    if rounds == [] then log == []
    else
      var n := |rounds| - 1;
      var start := |log| - |rounds[n].calls|;
      && 0 <= start && ProposedBy(oracle, n + skipped, rounds[n].calls)
        && RoundOf(oracle, context, log, start, rounds[n])
      && RoundsOf(oracle, context, log[..start], rounds[..n], skipped)
  }

  lemma {:induction false} RoundsOfCounts(oracle: Oracle, context: TurnContext, log: seq<Dispatched>,
                                          rounds: seq<Round>, skipped: nat)
    requires RoundsOf(oracle, context, log, rounds, skipped)
    ensures CallCount(rounds) == |log|
    decreases |rounds|
  {
    hide RoundOf, ProposedBy;
    if rounds != [] {
      var n := |rounds| - 1;
      RoundsOfCounts(oracle, context, log[..|log| - |rounds[n].calls|], rounds[..n], skipped);
    }
  }

  lemma {:induction false} CallCountOfPrefix(rounds: seq<Round>, n: nat)
    requires n <= |rounds|
    ensures CallCount(rounds[..n]) <= CallCount(rounds)
  {
    if n < |rounds| {
      CallCountOfPrefix(rounds[..|rounds| - 1], n);
      assert rounds[..|rounds| - 1][..n] == rounds[..n];
    } else {
      assert rounds[..n] == rounds;
    }
  }

  /** Identifiers used so far. */
  function Ids(log: seq<Dispatched>): set<string> {
    set i | 0 <= i < |log| :: log[i].call.id
  }

  ghost predicate IdsCover(ids: set<string>, rounds: seq<Round>) {
    forall r, c | r in rounds && c in r.calls :: c.id in ids
  }

  // ---- one batch ----

  method DispatchOne(oracle: Oracle, context: TurnContext, call: ValidatedToolCall, gathered: Gathered, n: nat)
    returns (d: Dispatched, message: Message, after: Gathered)
    requires Checked(call.input)
    ensures d.call == call && d.outcome == Outcome(ServicesAt(oracle, n), context, call.input)
    ensures message == ResultMessage(oracle, n, d)
    ensures after == Gather(gathered, d)
  {
    hide Outcome, Checked, ToBoundedJson, Cited, ServicesAt;
    var outcome := Dispatch(ServicesAt(oracle, n), context, call.input);
    var citations := ExtendCitations(gathered.citations, outcome);
    after := Gathered(
      if outcome.StagedProposal().Some? then outcome.StagedProposal() else gathered.proposal,
      if outcome.Staged? then outcome.omissions else gathered.omissions,
      if outcome.Staged? then outcome.uncertainties else gathered.uncertainties,
      gathered.history + [ActionRecord(call.definition.tool, outcome.HistoryStatus())],
      citations);
    d := Dispatched(call, outcome);
    message := ResultMessage(oracle, n, d);
  }

  /** These entries are the first accepted calls, run in order, with their result messages. */
  ghost predicate Ran(oracle: Oracle, context: TurnContext, accepted: seq<ValidatedToolCall>, start: nat,
                      log: seq<Dispatched>, results: seq<Message>) {
    && |results| == |log| <= |accepted|
    && forall i | 0 <= i < |log| ::
         && log[i].call == accepted[i]
         && Checked(accepted[i].input)
         && log[i].outcome == Outcome(ServicesAt(oracle, start + i), context, accepted[i].input)
         && results[i] == ResultMessage(oracle, start + i, log[i])
  }

  lemma NothingRan(oracle: Oracle, context: TurnContext, accepted: seq<ValidatedToolCall>, start: nat,
                   before: seq<Dispatched>)
    ensures Ran(oracle, context, accepted, start, [], []) && before + [] == before
  {
  }

  lemma RanOneMore(oracle: Oracle, context: TurnContext, accepted: seq<ValidatedToolCall>, start: nat,
                   log: seq<Dispatched>,
                   results: seq<Message>, d: Dispatched, message: Message)
    requires Ran(oracle, context, accepted, start, log, results) && |log| < |accepted|
    requires d.call == accepted[|log|] && Checked(d.call.input)
             && d.outcome == Outcome(ServicesAt(oracle, start + |log|), context, d.call.input)
    requires message == ResultMessage(oracle, start + |log|, d)
    ensures Ran(oracle, context, accepted, start, log + [d], results + [message])
  {
    hide Outcome, Checked, ResultMessage, ServicesAt;
  }

  method DispatchBatch(oracle: Oracle, context: TurnContext, accepted: seq<ValidatedToolCall>,
                       ghost before: seq<Dispatched>, gathered: Gathered, start: nat, checks: nat)
    returns (log: seq<Dispatched>, results: seq<Message>, after: Gathered, expired: bool)
    requires forall i | 0 <= i < |accepted| :: Checked(accepted[i].input)
    requires gathered == GatheredFrom(before) && start == |before|
    ensures Ran(oracle, context, accepted, start, log, results)
    ensures |log| <= |accepted| && (expired <==> |log| < |accepted|)
    ensures expired ==> ExpiredAt(oracle, checks + |log|)
    ensures forall check: nat | checks <= check < checks + |log| :: !ExpiredAt(oracle, check)
    ensures after == GatheredFrom(before + log)
  {
    hide *;
    log, results, after, expired := [], [], gathered, false;
    NothingRan(oracle, context, accepted, start, before);
    for i := 0 to |accepted|
      invariant |log| == i <= |accepted| && !expired
      invariant Ran(oracle, context, accepted, start, log, results)
      invariant forall check: nat | checks <= check < checks + i :: !ExpiredAt(oracle, check)
      invariant after == GatheredFrom(before + log)
    {
      if ExpiredAt(oracle, checks + i) {
        return log, results, after, true;
      }
      var d, message, next := DispatchOne(oracle, context, accepted[i], after, start + i);
      GatheredStep(before, log, d);
      RanOneMore(oracle, context, accepted, start, log, results, d, message);
      log, results, after := log + [d], results + [message], next;
    }
  }

  // ---- what holds of every run ----

  datatype Setup = Setup(oracle: Oracle, context: TurnContext, question: string, image: Option<Image>)

  /** What a turn did: the requests it sent, the rounds of its transcript, the calls it dispatched, and
      whether it set out to have a schema mistake repaired. */
  datatype Trace = Trace(requests: seq<ModelRequest>, rounds: seq<Round>, log: seq<Dispatched>, repaired: bool) {
    function Skipped(): nat { if repaired then 1 else 0 }
  }

  /** The rounds completed before request k. */
  function RoundsBefore(t: Trace, k: nat): nat {
    if t.repaired && k >= 1 then k - 1 else k
  }

  /** Request k: the user message and the longest suffix of all rounds so far that fits below its own
      instruction, the image with the first request and with the repair only, the tool forced by the
      repair only. */
  ghost predicate RequestOf(s: Setup, t: Trace, k: nat)
    requires k < |t.requests|
  {
    var request, n := t.requests[k], RoundsBefore(t, k);
    var repairing := t.repaired && k == 1;
    && n <= |t.rounds| && CallCount(t.rounds[..n]) <= |t.log|
    && request.instruction == Instruction(GatheredFrom(t.log[..CallCount(t.rounds[..n])]).history, repairing)
    && IsLongestFit(s.question, t.rounds[..n], InstructionChars(s.oracle, request.instruction), request.messages)
    && request.tools == SchemasForContext(s.oracle.toolbox, s.context)
    && request.image == (if k == 0 || repairing then s.image else None)
    && request.requiredTool == (if repairing then Some(ToolName(StageNewProjectDraft)) else None)
  }

  /** Why a repair is attempted: the first batch of a classified image turn is rejected for an unknown
      member. */
  ghost predicate RepairCause(s: Setup) {
    && s.image.Some? && s.context.project.None? && s.context.classifiedProjectType.Some?
    && exists calls :: ProposedBy(s.oracle, 0, calls)
                       && Rejects(s.oracle.toolbox, s.context, Charged(s.context), {}, calls,
                         InvalidArguments(UnknownField))
  }

  /** A repair was set out on exactly when its cause arose. */
  ghost predicate RepairedExactly(s: Setup, t: Trace) {
    t.repaired <==> t.requests != [] && RepairCause(s)
  }

  /** The deadline had not expired at any check that was made: one before each request and one before
      each dispatched call. */
  ghost predicate InTime(s: Setup, t: Trace) {
    forall check: nat | check < |t.requests| + |t.log| :: !ExpiredAt(s.oracle, check)
  }

  ghost predicate Requests(s: Setup, t: Trace) {
    forall k | 0 <= k < |t.requests| :: RequestOf(s, t, k)
  }

  ghost predicate Sound(s: Setup, t: Trace) {
    && Log(s.oracle, s.context, t.log)
    && CallCount(t.rounds) <= |t.log|
    && RoundsOf(s.oracle, s.context, t.log[..CallCount(t.rounds)], t.rounds, t.Skipped())
    && Separate(t.rounds)
    && Requests(s, t)
    && (t.repaired ==> RepairCause(s) && t.requests != [])
  }

  // ---- the loop ----

  /** The transcript holds a suffix of the rounds, and longer ones do not fit any more. */
  ghost predicate Kept(s: Setup, t: Trace, transcript: seq<Message>) {
    exists d: nat ::
      && d <= |t.rounds| && transcript == Whole(s.question, t.rounds[d..])
      && MustDrop(s.question, t.rounds, d, InstructionChars(s.oracle, Instruction(GatheredFrom(t.log).history, false)))
  }

  /** What the loop knows between two requests, and, with `sent`, between a request and its reply. */
  ghost predicate Running(s: Setup, t: Trace, transcript: seq<Message>, executed: set<string>, pending: bool,
                          sent: bool) {
    && Sound(s, t) && Kept(s, t, transcript)
    && CallCount(t.rounds) == |t.log|
    && executed == Ids(t.log) && IdsCover(executed, t.rounds)
    && |t.requests| == |t.rounds| + t.Skipped() + (if sent then 1 else 0)
    && (pending ==> !sent && t.repaired && |t.requests| == 1)
    && (t.repaired && !pending ==> |t.requests| >= 2)
  }

  lemma Starts(s: Setup)
    ensures Running(s, Trace([], [], [], false), [User(s.question)], {}, false, false)
    ensures GatheredFrom([]) == Gathered(None, [], [], [], [])
    ensures Sound(s, Trace([], [], [], false)) && Routed(s.oracle, 0) == None
  {
    var t := Trace([], [], [], false);
    assert Ids([]) == {};
    assert [User(s.question)] == Whole(s.question, t.rounds[0..]);
  }

  function WithRequest(t: Trace, request: ModelRequest): Trace {
    t.(requests := t.requests + [request])
  }

  lemma RequestStays(s: Setup, t: Trace, request: ModelRequest, k: nat)
    requires k < |t.requests| && RequestOf(s, t, k)
    ensures RequestOf(s, WithRequest(t, request), k)
  {
    hide GatheredFrom, CallCount, IsLongestFit, InstructionChars, SchemasForContext;
  }

  lemma OneMoreRequest(s: Setup, t: Trace, request: ModelRequest)
    requires Requests(s, t) && RequestOf(s, WithRequest(t, request), |t.requests|)
    ensures Requests(s, WithRequest(t, request))
  {
    hide RequestOf;
    forall k | 0 <= k < |WithRequest(t, request).requests|
      ensures RequestOf(s, WithRequest(t, request), k)
    {
      if k < |t.requests| {
        RequestStays(s, t, request, k);
      }
    }
  }

  lemma WholeRounds(rounds: seq<Round>, log: seq<Dispatched>)
    requires CallCount(rounds) == |log|
    ensures rounds[..|rounds|] == rounds && log[..CallCount(rounds)] == log
  {
  }

  lemma NewRequest(s: Setup, t: Trace, pending: bool, request: ModelRequest)
    requires CallCount(t.rounds) == |t.log| && |t.requests| == |t.rounds| + t.Skipped()
    requires pending ==> t.repaired && |t.requests| == 1
    requires t.repaired && !pending ==> |t.requests| >= 2
    requires request.instruction == Instruction(GatheredFrom(t.log).history, pending)
    requires IsLongestFit(s.question, t.rounds, InstructionChars(s.oracle, request.instruction), request.messages)
    requires request.tools == SchemasForContext(s.oracle.toolbox, s.context)
    requires request.image == (if pending || t.requests == [] then s.image else None)
    requires request.requiredTool == (if pending then Some(ToolName(StageNewProjectDraft)) else None)
    ensures RequestOf(s, WithRequest(t, request), |t.requests|)
  {
    WholeRounds(t.rounds, t.log);
    hide GatheredFrom, CallCount, IsLongestFit, InstructionChars, SchemasForContext, ToolName;
    var after, k := WithRequest(t, request), |t.requests|;
    assert RoundsBefore(after, k) == |t.rounds| && after.requests[k] == request;
  }

  lemma SoundWithRequest(s: Setup, t: Trace, request: ModelRequest)
    requires Sound(s, t) && RequestOf(s, WithRequest(t, request), |t.requests|)
    ensures Sound(s, WithRequest(t, request))
  {
    OneMoreRequest(s, t, request);
    hide CallCount, RoundsOf, Log, Separate, RepairCause, Requests, RequestOf;
  }

  lemma SentRuns(s: Setup, t: Trace, transcript: seq<Message>, executed: set<string>, pending: bool,
                 request: ModelRequest)
    requires Running(s, t, transcript, executed, pending, false)
    requires Sound(s, WithRequest(t, request)) && Kept(s, WithRequest(t, request), request.messages)
    ensures Running(s, WithRequest(t, request), request.messages, executed, false, true)
  {
    hide CallCount, Sound, Kept, Ids, IdsCover;
  }

  lemma RunningKept(s: Setup, t: Trace, transcript: seq<Message>, executed: set<string>, pending: bool, sent: bool)
    requires Running(s, t, transcript, executed, pending, sent)
    ensures Kept(s, t, transcript) && Separate(t.rounds) && (pending ==> t.rounds == []) && IdsCover(executed, t.rounds)
    ensures t.repaired && !pending ==> |t.requests| >= 2
  {
    hide Kept, CallCount, RoundsOf, Log, Separate, RepairCause, Requests, Ids, IdsCover;
  }

  /** Compacting and sending. */
  lemma Sends(s: Setup, t: Trace, transcript: seq<Message>, executed: set<string>, pending: bool, request: ModelRequest)
    requires Running(s, t, transcript, executed, pending, false)
    requires request.instruction == Instruction(GatheredFrom(t.log).history, pending)
    requires Compacted(transcript, InstructionChars(s.oracle, request.instruction)) == Ok(request.messages)
    requires request.tools == SchemasForContext(s.oracle.toolbox, s.context)
    requires request.image == (if pending || t.requests == [] then s.image else None)
    requires request.requiredTool == (if pending then Some(ToolName(StageNewProjectDraft)) else None)
    ensures Running(s, WithRequest(t, request), request.messages, executed, false, true)
  {
    RunningKept(s, t, transcript, executed, pending, false);
    CompactionOfKept(s, t, transcript, pending, request.instruction);
    NewRequest(s, t, pending, request);
    SoundWithRequest(s, t, request);
    KeptIgnoresRequests(s, t, request, request.messages);
    hide *;
    SentRuns(s, t, transcript, executed, pending, request);
  }

  lemma KeptIgnoresRequests(s: Setup, t: Trace, request: ModelRequest, transcript: seq<Message>)
    ensures Kept(s, t, transcript) ==> Kept(s, WithRequest(t, request), transcript)
  {
  }

  /** Compaction of what was kept is as good as compaction of everything. */
  lemma CompactionOfKept(s: Setup, t: Trace, transcript: seq<Message>, repairing: bool, instruction: Instruction)
    requires Kept(s, t, transcript) && Separate(t.rounds)
    requires instruction == Instruction(GatheredFrom(t.log).history, repairing) && (repairing ==> t.rounds == [])
    ensures var r := Compacted(transcript, InstructionChars(s.oracle, instruction));
            && (r.Ok? <==> InstructionChars(s.oracle, instruction) + |s.question| <= MAX_PROMPT_CONTEXT_CHARS)
            && (r.Ok? ==>
              IsLongestFit(s.question, t.rounds, InstructionChars(s.oracle, instruction), r.value)
              && Kept(s, t, r.value))
            && (r.Err? ==> r.error == PromptContext)
  {
    hide Compacted, Whole, SuffixFits, InstructionChars, GatheredFrom, Separate;
    var chars := InstructionChars(s.oracle, instruction);
    var d: nat :| d <= |t.rounds| && transcript == Whole(s.question, t.rounds[d..])
                  && MustDrop(s.question, t.rounds, d,
                    InstructionChars(s.oracle, Instruction(GatheredFrom(t.log).history, false)));
    CompactionKeepsLongestFit(s.question, t.rounds, d, chars);
  }

  // ---- a batch is done, or cut short ----

  function Extended(t: Trace, rounds: seq<Round>, log: seq<Dispatched>): Trace {
    t.(rounds := t.rounds + rounds, log := t.log + log)
  }

  lemma RequestKept(s: Setup, t: Trace, rounds: seq<Round>, log: seq<Dispatched>, k: nat)
    requires k < |t.requests| && RequestOf(s, t, k)
    ensures RequestOf(s, Extended(t, rounds, log), k)
  {
    var after, n := Extended(t, rounds, log), RoundsBefore(t, k);
    assert after.rounds[..n] == t.rounds[..n];
    assert after.log[..CallCount(t.rounds[..n])] == t.log[..CallCount(t.rounds[..n])];
    hide GatheredFrom, CallCount, IsLongestFit, InstructionChars, SchemasForContext;
  }

  lemma RequestsKept(s: Setup, t: Trace, rounds: seq<Round>, log: seq<Dispatched>)
    requires Requests(s, t)
    ensures Requests(s, Extended(t, rounds, log))
  {
    hide RequestOf;
    forall k | 0 <= k < |t.requests|
      ensures RequestOf(s, Extended(t, rounds, log), k)
    {
      RequestKept(s, t, rounds, log, k);
    }
  }

  /** What was run is a prefix of an acceptable batch. */
  ghost predicate BatchRan(s: Setup, t: Trace, calls: seq<ProposedToolCall>, log: seq<Dispatched>,
                           results: seq<Message>) {
    && |results| == |log| <= |calls| <= MAX_TOOL_CALLS_PER_RESPONSE
    && AllPermitted(s.oracle.toolbox, s.context, Ids(t.log), calls, |calls|)
    && forall i {:trigger calls[i]} | 0 <= i < |log| ::
         && Permitted(s.oracle.toolbox, s.context, calls[i])
         && log[i].call == Validated(s.oracle.toolbox, s.context, calls[i])
         && Legitimate(s.oracle, s.context, |t.log| + i, log[i])
         && results[i] == ResultMessage(s.oracle, |t.log| + i, log[i])
  }

  lemma AcceptedBatchRan(s: Setup, t: Trace, calls: seq<ProposedToolCall>, accepted: seq<ValidatedToolCall>,
                         log: seq<Dispatched>, results: seq<Message>)
    requires |calls| <= MAX_TOOL_CALLS_PER_RESPONSE
             && AllPermitted(s.oracle.toolbox, s.context, Ids(t.log), calls, |calls|)
    requires IsValidated(s.oracle.toolbox, s.context, calls, |calls|, accepted)
    requires Ran(s.oracle, s.context, accepted, |t.log|, log, results)
    ensures BatchRan(s, t, calls, log, results)
  {
    hide Permitted, Validated, Legitimate, ResultMessage, Outcome, Checked, AllPermitted, ServicesAt;
    forall i {:trigger calls[i]} | 0 <= i < |log|
      ensures Permitted(s.oracle.toolbox, s.context, calls[i])
      ensures log[i].call == Validated(s.oracle.toolbox, s.context, calls[i])
      ensures Legitimate(s.oracle, s.context, |t.log| + i, log[i])
      ensures results[i] == ResultMessage(s.oracle, |t.log| + i, log[i])
    {
      assert log[i].call == accepted[i];
      PermittedIsLegitimate(s.oracle, s.context, |t.log| + i, calls[i], log[i]);
    }
  }

  lemma AcceptedIsChecked(s: Setup, calls: seq<ProposedToolCall>, accepted: seq<ValidatedToolCall>)
    requires IsValidated(s.oracle.toolbox, s.context, calls, |calls|, accepted)
    ensures |accepted| == |calls| && forall i | 0 <= i < |accepted| :: Checked(accepted[i].input)
  {
    hide Permitted, Validated, Checked, Legitimate;
    forall i | 0 <= i < |accepted|
      ensures Checked(accepted[i].input)
    {
      PermittedIsLegitimate(s.oracle, s.context, 0, calls[i], Dispatched(accepted[i], Unavailable("")));
    }
  }

  lemma FreshIds(s: Setup, t: Trace, calls: seq<ProposedToolCall>, log: seq<Dispatched>, results: seq<Message>, i: nat)
    requires BatchRan(s, t, calls, log, results) && i < |log|
    ensures log[i].call.id == calls[i].id && calls[i].id !in Ids(t.log)
    ensures forall j | 0 <= j < i :: calls[j].id != calls[i].id
  {
    hide Permitted, Legitimate, ResultMessage, Ids;
    assert !Taken(Ids(t.log), calls, i, calls[i].id);
    assert log[i].call == Validated(s.oracle.toolbox, s.context, calls[i]);
  }

  lemma LogGrows(s: Setup, t: Trace, calls: seq<ProposedToolCall>, log: seq<Dispatched>, results: seq<Message>)
    requires Log(s.oracle, s.context, t.log) && BatchRan(s, t, calls, log, results)
    ensures Log(s.oracle, s.context, t.log + log)
  {
    hide Permitted, Validated, Legitimate, ResultMessage, AllPermitted;
    var n, whole := |t.log|, t.log + log;
    forall i | 0 <= i < |whole|
      ensures Legitimate(s.oracle, s.context, i, whole[i])
    {
      if n <= i {
        assert Permitted(s.oracle.toolbox, s.context, calls[i - n]);
      }
    }
    forall i, j | 0 <= i < j < |whole|
      ensures whole[i].call.id != whole[j].call.id
    {
      if n <= j {
        FreshIds(s, t, calls, log, results, j - n);
        if n <= i {
          FreshIds(s, t, calls, log, results, i - n);
        } else {
          assert whole[i].call.id in Ids(t.log);
        }
      }
    }
  }

  lemma NewRound(s: Setup, t: Trace, calls: seq<ProposedToolCall>, log: seq<Dispatched>, results: seq<Message>)
    requires BatchRan(s, t, calls, log, results) && |log| == |calls| >= 1
    ensures RoundOf(s.oracle, s.context, t.log + log, |t.log|, Round(calls, results))
    ensures Complete(Round(calls, results))
  {
    hide Permitted, Validated, Legitimate, AllPermitted, ToBoundedJson;
    forall i | 0 <= i < |calls|
      ensures Permitted(s.oracle.toolbox, s.context, calls[i])
      ensures (t.log + log)[|t.log| + i].call == Validated(s.oracle.toolbox, s.context, calls[i])
      ensures results[i] == ResultMessage(s.oracle, |t.log| + i, (t.log + log)[|t.log| + i])
      ensures results[i].ToolResult? && results[i].callId == calls[i].id
    {
      FreshIds(s, t, calls, log, results, i);
    }
  }

  lemma RoundsGrow(s: Setup, t: Trace, r: Round, log: seq<Dispatched>)
    requires RoundsOf(s.oracle, s.context, t.log, t.rounds, t.Skipped())
    requires |log| == |r.calls| && RoundOf(s.oracle, s.context, t.log + log, |t.log|, r)
    requires ProposedBy(s.oracle, |t.rounds| + t.Skipped(), r.calls)
    ensures RoundsOf(s.oracle, s.context, t.log + log, t.rounds + [r], t.Skipped())
  {
    hide RoundOf, ProposedBy;
    assert (t.log + log)[..|t.log|] == t.log && (t.rounds + [r])[..|t.rounds|] == t.rounds;
  }

  lemma SeparateGrows(s: Setup, t: Trace, calls: seq<ProposedToolCall>, log: seq<Dispatched>, results: seq<Message>)
    requires BatchRan(s, t, calls, log, results) && |log| == |calls| >= 1
    requires Separate(t.rounds) && IdsCover(Ids(t.log), t.rounds)
    ensures Separate(t.rounds + [Round(calls, results)])
  {
    var r := Round(calls, results);
    NewRound(s, t, calls, log, results);
    forall i | 0 <= i < |t.rounds|
      ensures !SharesId(t.rounds[i], r)
    {
      forall c, d | c in t.rounds[i].calls && d in calls
        ensures c.id != d.id
      {
        assert t.rounds[i] in t.rounds && c.id in Ids(t.log);
        var j: nat :| j < |calls| && calls[j] == d;
        FreshIds(s, t, calls, log, results, j);
      }
    }
    hide SharesId, Complete, BatchRan, RoundOf, IdsCover;
    SeparateAppended(t.rounds, r);
  }

  lemma SeparateAppended(rounds: seq<Round>, r: Round)
    requires Separate(rounds) && Complete(r) && forall i | 0 <= i < |rounds| :: !SharesId(rounds[i], r)
    ensures Separate(rounds + [r])
  {
    hide SharesId, Complete;
  }

  lemma IdsGrow(s: Setup, t: Trace, calls: seq<ProposedToolCall>, log: seq<Dispatched>, results: seq<Message>)
    requires BatchRan(s, t, calls, log, results) && |log| == |calls| && IdsCover(Ids(t.log), t.rounds)
    ensures Ids(t.log + log) == Ids(t.log) + Ids(log)
    ensures IdsCover(Ids(t.log + log), t.rounds + [Round(calls, results)])
  {
    IdsAppend(t.log, log);
    forall c | c in calls
      ensures c.id in Ids(log)
    {
      var j: nat :| j < |calls| && calls[j] == c;
      FreshIds(s, t, calls, log, results, j);
      assert log[j].call.id in Ids(log);
    }
    hide BatchRan, Ids;
    var rounds, r := t.rounds + [Round(calls, results)], Round(calls, results);
    assert forall x | x in rounds :: x in t.rounds || x == r;
  }

  lemma SomeIds(log: seq<Dispatched>)
    ensures log != [] ==> Ids(log) != {}
  {
    if log != [] {
      assert log[0].call.id in Ids(log);
    }
  }

  lemma IdsAppend(a: seq<Dispatched>, b: seq<Dispatched>)
    ensures Ids(a + b) == Ids(a) + Ids(b)
  {
    forall id
      ensures id in Ids(a + b) <==> id in Ids(a) || id in Ids(b)
    {
      if id in Ids(a) {
        var i :| 0 <= i < |a| && a[i].call.id == id;
        assert (a + b)[i] == a[i];
      }
      if id in Ids(b) {
        var i :| 0 <= i < |b| && b[i].call.id == id;
        assert (a + b)[|a| + i] == b[i];
      }
    }
  }

  lemma {:induction false} HistoryExtends(log: seq<Dispatched>, more: seq<Dispatched>)
    ensures GatheredFrom(log).history <= GatheredFrom(log + more).history
    ensures log != [] ==> GatheredFrom(log).history != []
  {
    if more == [] {
      assert log + more == log;
    } else {
      HistoryExtends(log, more[..|more| - 1]);
      assert (log + more)[..|log + more| - 1] == log + more[..|more| - 1];
    }
  }

  lemma WholeGrows(question: string, rounds: seq<Round>, d: nat, r: Round)
    requires d <= |rounds|
    ensures Whole(question, (rounds + [r])[d..])
            == Whole(question, rounds[d..]) + [AssistantToolCalls(r.calls)] + r.results
  {
    assert (rounds + [r])[d..] == rounds[d..] + [r];
    FlattenAppends(rounds[d..], [r]);
    assert Flatten([r]) == [AssistantToolCalls(r.calls)] + r.results;
  }

  lemma KeptGrows(s: Setup, t: Trace, transcript: seq<Message>, r: Round, log: seq<Dispatched>)
    requires Kept(s, t, transcript)
    ensures Kept(s, Extended(t, [r], log), transcript + [AssistantToolCalls(r.calls)] + r.results)
  {
    var after := Extended(t, [r], log);
    var history, later := GatheredFrom(t.log).history, GatheredFrom(after.log).history;
    HistoryExtends(t.log, log);
    hide InstructionChars, GatheredFrom, SuffixFits, Whole, Flatten, MustDrop;
    var chars, laterChars := InstructionChars(s.oracle, Instruction(history, false)),
      InstructionChars(s.oracle, Instruction(later, false));
    var d: nat :| d <= |t.rounds| && transcript == Whole(s.question, t.rounds[d..])
      && MustDrop(s.question, t.rounds, d, chars);
    WholeGrows(s.question, t.rounds, d, r);
    HistoryOnlyGrows(s.oracle, history, later[|history|..]);
    assert history + later[|history|..] == later;
    MustDropPersists(s.question, t.rounds, d, chars, [r], laterChars);
  }

  lemma SoundGrows(s: Setup, t: Trace, calls: seq<ProposedToolCall>, log: seq<Dispatched>, results: seq<Message>)
    requires Sound(s, t) && CallCount(t.rounds) == |t.log| && IdsCover(Ids(t.log), t.rounds)
    requires ProposedBy(s.oracle, |t.rounds| + t.Skipped(), calls)
    requires BatchRan(s, t, calls, log, results) && |log| == |calls| >= 1
    ensures Sound(s, Extended(t, [Round(calls, results)], log))
    ensures CallCount(t.rounds + [Round(calls, results)]) == |t.log + log|
    ensures t.rounds != [] ==> t.log != []
  {
    var r := Round(calls, results);
    WholeRounds(t.rounds, t.log);
    LogGrows(s, t, calls, log, results);
    NewRound(s, t, calls, log, results);
    RoundsGrow(s, t, r, log);
    RoundsAreNotEmpty(s, t);
    SeparateGrows(s, t, calls, log, results);
    RequestsKept(s, t, [r], log);
    assert (t.rounds + [r])[..|t.rounds|] == t.rounds;
    assert CallCount(t.rounds + [r]) == |t.log + log|;
    WholeRounds(t.rounds + [r], t.log + log);
    hide CallCount, RoundsOf, Log, Separate, RepairCause, Requests, Ids, IdsCover, BatchRan, ProposedBy, RoundOf,
      Complete;
  }

  /** A batch that ran to its end is one more round. */
  lemma BatchDone(s: Setup, t: Trace, transcript: seq<Message>, executed: set<string>, calls: seq<ProposedToolCall>,
                  log: seq<Dispatched>, results: seq<Message>)
    requires Running(s, t, transcript, executed, false, true)
    requires ProposedBy(s.oracle, |t.requests| - 1, calls)
    requires BatchRan(s, t, calls, log, results) && |log| == |calls| >= 1
    ensures Running(s, Extended(t, [Round(calls, results)], log), transcript + [AssistantToolCalls(calls)] + results,
                    executed + Ids(log), false, false)
  {
    hide *;
    RunningMeans(s, t, transcript, executed, false, true);
    RunningKept(s, t, transcript, executed, false, true);
    SoundGrows(s, t, calls, log, results);
    IdsGrow(s, t, calls, log, results);
    KeptGrows(s, t, transcript, Round(calls, results), log);
    ExtendedMeans(s, t, calls, log, results);
    IsRunning(s, Extended(t, [Round(calls, results)], log), transcript + [AssistantToolCalls(calls)] + results,
      executed + Ids(log));
  }

  lemma IsRunning(s: Setup, t: Trace, transcript: seq<Message>, executed: set<string>)
    requires Sound(s, t) && Kept(s, t, transcript) && CallCount(t.rounds) == |t.log|
    requires executed == Ids(t.log) && IdsCover(executed, t.rounds)
    requires |t.requests| == |t.rounds| + t.Skipped() && (t.repaired ==> |t.requests| >= 2)
    ensures Running(s, t, transcript, executed, false, false)
  {
    hide Sound, Kept, CallCount, Ids, IdsCover;
  }

  lemma RoundsAreNotEmpty(s: Setup, t: Trace)
    requires RoundsOf(s.oracle, s.context, t.log, t.rounds, t.Skipped())
    ensures t.rounds == [] <==> t.log == []
  {
  }

  /** A batch that the deadline cut short still ran as far as it did. */
  lemma BatchCut(s: Setup, t: Trace, transcript: seq<Message>, executed: set<string>, calls: seq<ProposedToolCall>,
                 log: seq<Dispatched>, results: seq<Message>)
    requires Running(s, t, transcript, executed, false, true)
    requires BatchRan(s, t, calls, log, results)
    ensures Sound(s, Extended(t, [], log))
  {
    LogGrows(s, t, calls, log, results);
    RequestsKept(s, t, [], log);
    WholeRounds(t.rounds, t.log);
    assert t.rounds + [] == t.rounds && (t.log + log)[..|t.log|] == t.log;
    hide CallCount, RoundsOf, Log, Separate, RepairCause, Requests, Kept, Ids, IdsCover, BatchRan;
  }

  /** The one repair: nothing but the decision to attempt it is recorded. */
  lemma Repairs(s: Setup, t: Trace, transcript: seq<Message>, executed: set<string>)
    requires Running(s, t, transcript, executed, false, true) && !t.repaired && executed == {} && RepairCause(s)
    ensures Running(s, t.(repaired := true), transcript, executed, true, false)
  {
    var after := t.(repaired := true);
    WholeRounds(t.rounds, t.log);
    SomeIds(t.log);
    RoundsAreNotEmpty(s, t);
    hide RepairCause, Log, Separate, Ids, IdsCover, GatheredFrom, IsLongestFit, InstructionChars, MustDrop, Whole,
      SchemasForContext, ToolName;
    assert Requests(s, after) by {
      assert RequestOf(s, t, 0);
      assert RequestOf(s, after, 0);
    }
    assert Kept(s, after, transcript) by {
      hide Requests, RoundsOf, RequestOf;
    }
    hide Requests, RequestOf, Kept;
  }

  // ---- the turn ----

  /** Model requests that were spent on classifying the image, and the one tool call that counts for it. */
  function Spent(context: TurnContext): nat {
    if context.classifiedProjectType.Some? then context.classificationModelRequests else 0
  }

  function Charged(context: TurnContext): nat {
    if context.classifiedProjectType.Some? then 1 else 0
  }

  /** The last routed model that was reported in the first n replies. */
  function Routed(oracle: Oracle, n: nat): Option<string> {
    if n == 0 then None
    else
      var reply := ReplyTo(oracle, n - 1);
      if reply.Ok? && reply.value.routedModel.Some? then reply.value.routedModel else Routed(oracle, n - 1)
  }

  ghost predicate WithinBudget(s: Setup, t: Trace) {
    && (t.requests != [] ==> Spent(s.context) + |t.requests| <= MAX_MODEL_REQUESTS)
    && Charged(s.context) + |t.log| <= MAX_TOOL_CALLS
  }

  /** A turn answers only with prose that follows a dispatched call, and reports what it gathered. */
  ghost predicate Answered(s: Setup, t: Trace, o: TurnOutcome) {
    var g := GatheredFrom(t.log);
    && t.log != [] && CallCount(t.rounds) == |t.log|
    && |t.requests| == |t.rounds| + t.Skipped() + 1
    && ReplyTo(s.oracle, |t.requests| - 1).Ok? && ReplyTo(s.oracle, |t.requests| - 1).value.output.Prose?
    && o.answer
      == (if s.image.Some? && s.context.project.None? && s.context.classifiedProjectType.Some? && g.proposal.None?
                    then IMAGE_DRAFT_NOT_CREATED_ANSWER else ReplyTo(s.oracle, |t.requests| - 1).value.output.text)
    && o.proposal == g.proposal && o.omissions == g.omissions && o.uncertainties == g.uncertainties
      && o.citations == g.citations
    && o.routedModel == Routed(s.oracle, |t.requests|)
    && o.modelRequests == Spent(s.context) + |t.requests|
    && o.toolCalls == Charged(s.context) + |t.log|
  }

  /** Why a turn fails.  A batch that passed preflight never exhausts the tool budget. */
  ghost predicate FailedFor(s: Setup, t: Trace, e: TurnError) {
    match e
    case InvalidQuestion => t == Trace([], [], [], false) && !(1 <= |s.question| <= MAX_QUESTION_CHARS)
    case Deadline => ExpiredAt(s.oracle, |t.requests| + |t.log|)
    case OverBudget(ModelRequests) => Spent(s.context) + |t.requests| >= MAX_MODEL_REQUESTS
    case OverBudget(ToolCalls) => false
    case OverBudget(PromptContext) =>
      var next := Instruction(GatheredFrom(t.log).history, t.repaired && |t.requests| == 1);
      InstructionChars(s.oracle, next) + |s.question| > MAX_PROMPT_CONTEXT_CHARS
    case Rejected(policy) =>
      && t.requests != [] && (t.repaired ==> |t.requests| > 1)
      && var reply := ReplyTo(s.oracle, |t.requests| - 1);
      && reply.Ok?
      && (match reply.value.output
          case Prose(_) => policy == UngroundedResponse && t.log == []
          case ToolCalls(calls) => Rejects(s.oracle.toolbox, s.context, Charged(s.context) + |t.log|, Ids(t.log), calls,
            policy))
    case ModelFailed(error) =>
      t.requests != [] && (t.repaired ==> |t.requests| > 1) && ReplyTo(s.oracle, |t.requests| - 1) == Err(error)
  }

  method ChargeClassification(context: TurnContext, budget: TurnBudget) returns (r: Result<(), BudgetError>)
    requires budget.Valid() && budget.modelRequests == 0 && budget.toolCalls == 0
    modifies budget
    ensures budget.Valid()
    ensures r.Ok? ==> budget.modelRequests == Spent(context) && budget.toolCalls == Charged(context)
    ensures r.Err? ==> r == Err(BudgetError.ModelRequests) && Spent(context) > MAX_MODEL_REQUESTS
  {
    if context.classifiedProjectType.Some? {
      for i := 0 to context.classificationModelRequests
        invariant budget.Valid() && budget.modelRequests == i && budget.toolCalls == 0
      {
        var charged := budget.ChargeModelRequest();
        if charged.Err? {
          return Err(charged.error);
        }
      }
      r := budget.ChargeToolCalls(1);
    } else {
      r := Ok(());
    }
  }

  lemma RunningMeans(s: Setup, t: Trace, transcript: seq<Message>, executed: set<string>, pending: bool, sent: bool)
    requires Running(s, t, transcript, executed, pending, sent)
    ensures Sound(s, t) && executed == Ids(t.log) && (executed == {} <==> t.log == [])
    ensures CallCount(t.rounds) == |t.log| && |t.requests| == |t.rounds| + t.Skipped() + (if sent then 1 else 0)
    ensures pending ==> t.repaired && |t.requests| == 1
    ensures !sent && !pending ==> !(t.repaired && |t.requests| == 1)
  {
    SomeIds(t.log);
    hide Sound, Kept, CallCount, IdsCover;
  }

  /** Compaction fails only when dropping everything would not help. */
  lemma CompactionFails(s: Setup, t: Trace, transcript: seq<Message>, executed: set<string>, pending: bool,
                        e: BudgetError)
    requires Running(s, t, transcript, executed, pending, false)
    requires Compacted(transcript, InstructionChars(s.oracle, Instruction(GatheredFrom(t.log).history, pending)))
             == Err(e)
    ensures FailedFor(s, t, OverBudget(e))
  {
    hide *;
    RunningKept(s, t, transcript, executed, pending, false);
    RunningMeans(s, t, transcript, executed, pending, false);
    CompactionOfKept(s, t, transcript, pending, Instruction(GatheredFrom(t.log).history, pending));
    PromptFails(s, t);
  }

  lemma PromptFails(s: Setup, t: Trace)
    requires var next := Instruction(GatheredFrom(t.log).history, t.repaired && |t.requests| == 1);
             InstructionChars(s.oracle, next) + |s.question| > MAX_PROMPT_CONTEXT_CHARS
    ensures FailedFor(s, t, OverBudget(PromptContext))
  {
    hide GatheredFrom, InstructionChars;
  }

  lemma UnknownFieldCausesRepair(s: Setup, t: Trace, transcript: seq<Message>, calls: seq<ProposedToolCall>)
    requires Running(s, t, transcript, {}, false, true) && !t.repaired
    requires s.image.Some? && s.context.project.None? && s.context.classifiedProjectType.Some?
    requires ProposedBy(s.oracle, |t.requests| - 1, calls)
    requires Rejects(s.oracle.toolbox, s.context, Charged(s.context) + |t.log|, {}, calls,
             InvalidArguments(UnknownField))
    ensures RepairCause(s)
  {
    hide *;
    RunningMeans(s, t, transcript, {}, false, true);
    RoundsAreNotEmptyWhenSound(s, t);
    NothingSkipped(t);
    CauseIs(s, calls);
  }

  lemma NothingSkipped(t: Trace)
    ensures !t.repaired ==> t.Skipped() == 0
  {
  }

  lemma CauseIs(s: Setup, calls: seq<ProposedToolCall>)
    requires s.image.Some? && s.context.project.None? && s.context.classifiedProjectType.Some?
             && ProposedBy(s.oracle, 0, calls)
    requires Rejects(s.oracle.toolbox, s.context, Charged(s.context), {}, calls, InvalidArguments(UnknownField))
    ensures RepairCause(s)
  {
    hide Rejects, ProposedBy, Charged;
  }

  /** While the reply to the first request is open, nothing is decided about a repair. */
  ghost predicate RepairOpen(s: Setup, t: Trace) {
    (|t.requests| == 1 && !t.repaired) || (t.requests != [] && RepairedExactly(s, t))
  }

  lemma SendingLeavesRepairOpen(s: Setup, t: Trace, request: ModelRequest)
    requires RepairedExactly(s, t)
    ensures RepairOpen(s, WithRequest(t, request))
  {
    hide RepairCause;
  }

  lemma NoRepairWithoutCalls(s: Setup, t: Trace)
    requires RepairOpen(s, t)
    requires var reply := ReplyTo(s.oracle, |t.requests| - 1); reply.Ok? ==> reply.value.output.Prose?
    ensures RepairedExactly(s, t)
  {
    hide Rejects;
  }

  lemma NoRepairOfAccepted(s: Setup, t: Trace, transcript: seq<Message>, executed: set<string>,
                           calls: seq<ProposedToolCall>)
    requires RepairOpen(s, t) && Running(s, t, transcript, executed, false, true)
    requires ProposedBy(s.oracle, |t.requests| - 1, calls)
    requires Acceptable(s.oracle.toolbox, s.context, Charged(s.context) + |t.log|, executed, calls)
    ensures RepairedExactly(s, t)
  {
    hide *;
    FirstReply(s, t, transcript, executed);
    AcceptableIsNotRejected(s.oracle.toolbox, s.context, Charged(s.context) + |t.log|, executed, calls);
    NoCauseNoRepair(s, t, calls);
  }

  lemma NoRepairOfRejected(s: Setup, t: Trace, transcript: seq<Message>, executed: set<string>,
                           calls: seq<ProposedToolCall>,
                           e: PolicyError)
    requires RepairOpen(s, t) && Running(s, t, transcript, executed, false, true)
    requires ProposedBy(s.oracle, |t.requests| - 1, calls)
    requires Rejects(s.oracle.toolbox, s.context, Charged(s.context) + |t.log|, executed, calls, e)
    requires !(e == InvalidArguments(UnknownField) && s.image.Some? && s.context.project.None?
               && s.context.classifiedProjectType.Some? && executed == {} && !t.repaired)
    ensures RepairedExactly(s, t)
  {
    hide *;
    FirstReply(s, t, transcript, executed);
    RejectsForOneReason(s.oracle.toolbox, s.context, Charged(s.context) + |t.log|, executed, calls, e);
    NoCauseNoRepair(s, t, calls);
  }

  lemma NoCauseNoRepair(s: Setup, t: Trace, calls: seq<ProposedToolCall>)
    requires RepairOpen(s, t) && ProposedBy(s.oracle, |t.requests| - 1, calls)
    requires |t.requests| == 1 && !t.repaired && s.image.Some? && s.context.project.None?
             && s.context.classifiedProjectType.Some? ==>
               !Rejects(s.oracle.toolbox, s.context, Charged(s.context), {}, calls, InvalidArguments(UnknownField))
    ensures RepairedExactly(s, t)
  {
    hide Rejects, Charged;
  }

  lemma FirstReply(s: Setup, t: Trace, transcript: seq<Message>, executed: set<string>)
    requires Running(s, t, transcript, executed, false, true)
    ensures |t.requests| == 1 ==> t.log == [] && executed == {}
    ensures t.repaired ==> |t.requests| > 1
  {
    RunningMeans(s, t, transcript, executed, false, true);
    RunningKept(s, t, transcript, executed, false, true);
    hide Running, Sound, Kept;
    assert |t.requests| == 1 ==> t.rounds == [];
  }

  lemma RepairDecided(s: Setup, t: Trace)
    requires t.requests != [] && RepairCause(s)
    ensures RepairedExactly(s, t.(repaired := true)) && (InTime(s, t) ==> InTime(s, t.(repaired := true)))
  {
    hide RepairCause;
  }

  lemma RepairStaysDecided(s: Setup, t: Trace, rounds: seq<Round>, log: seq<Dispatched>)
    requires RepairedExactly(s, t)
    ensures RepairedExactly(s, Extended(t, rounds, log))
  {
    hide RepairCause;
  }

  lemma NothingYet(s: Setup)
    ensures InTime(s, Trace([], [], [], false)) && RepairedExactly(s, Trace([], [], [], false))
  {
    hide RepairCause;
  }

  lemma StaysInTime(s: Setup, t: Trace, request: ModelRequest)
    requires InTime(s, t) && !ExpiredAt(s.oracle, |t.requests| + |t.log|)
    ensures InTime(s, WithRequest(t, request))
  {
    hide ExpiredAt;
  }

  lemma StaysInTimeExtended(s: Setup, t: Trace, rounds: seq<Round>, log: seq<Dispatched>)
    requires InTime(s, t)
    requires forall check: nat | |t.requests| + |t.log| <= check < |t.requests| + |t.log| + |log| ::
             !ExpiredAt(s.oracle, check)
    ensures InTime(s, Extended(t, rounds, log))
  {
    hide ExpiredAt;
  }

  lemma RoundsAreNotEmptyWhenSound(s: Setup, t: Trace)
    requires Sound(s, t) && CallCount(t.rounds) == |t.log|
    ensures t.rounds == [] <==> t.log == []
  {
    WholeRounds(t.rounds, t.log);
    RoundsAreNotEmpty(s, t);
  }

  lemma BatchIsSmall(toolbox: Toolbox, context: TurnContext, toolCalls: nat, executed: set<string>,
                     batch: seq<ProposedToolCall>)
    requires Acceptable(toolbox, context, toolCalls, executed, batch)
    ensures 1 <= |batch| <= MAX_TOOL_CALLS_PER_RESPONSE && toolCalls + |batch| <= MAX_TOOL_CALLS
    ensures AllPermitted(toolbox, context, executed, batch, |batch|)
  {
  }

  // Small steps of RunTurn, so that its body needs no definitions.

  lemma SentStep(s: Setup, t: Trace, transcript: seq<Message>, executed: set<string>, pending: bool,
                 request: ModelRequest)
    requires Running(s, t, transcript, executed, pending, false)
    requires request.instruction == Instruction(GatheredFrom(t.log).history, pending)
    requires Compacted(transcript, InstructionChars(s.oracle, request.instruction)) == Ok(request.messages)
    requires request.tools == SchemasForContext(s.oracle.toolbox, s.context)
    requires request.image == (if pending || t.requests == [] then s.image else None)
    requires request.requiredTool == (if pending then Some(ToolName(StageNewProjectDraft)) else None)
    requires InTime(s, t) && !ExpiredAt(s.oracle, |t.requests| + |t.log|) && RepairedExactly(s, t)
    ensures var after := WithRequest(t, request);
            && Running(s, after, request.messages, executed, false, true)
            && Sound(s, after) && InTime(s, after) && RepairOpen(s, after)
            && |after.requests| == |t.requests| + 1 && after.log == t.log
            && executed == Ids(t.log) && (executed == {} <==> t.log == [])
            && CallCount(after.rounds) == |after.log| && |after.requests| == |after.rounds| + after.Skipped() + 1
            && (after.repaired ==> |after.requests| > 1)
  {
    hide *;
    Sends(s, t, transcript, executed, pending, request);
    WithRequestMeans(t, request);
    StaysInTime(s, t, request);
    SendingLeavesRepairOpen(s, t, request);
    RunningMeans(s, WithRequest(t, request), request.messages, executed, false, true);
    FirstReply(s, WithRequest(t, request), request.messages, executed);
  }

  lemma CutStep(s: Setup, t: Trace, transcript: seq<Message>, executed: set<string>, calls: seq<ProposedToolCall>,
                log: seq<Dispatched>, results: seq<Message>)
    requires Running(s, t, transcript, executed, false, true) && BatchRan(s, t, calls, log, results)
    requires InTime(s, t) && RepairedExactly(s, t)
    requires forall check: nat | |t.requests| + |t.log| <= check < |t.requests| + |t.log| + |log| ::
             !ExpiredAt(s.oracle, check)
    ensures var after := Extended(t, [], log);
            && Sound(s, after) && InTime(s, after) && RepairedExactly(s, after)
            && after.requests == t.requests && after.log == t.log + log
  {
    hide *;
    StaysInTimeExtended(s, t, [], log);
    RepairStaysDecided(s, t, [], log);
    BatchCut(s, t, transcript, executed, calls, log, results);
    ExtendedMeans(s, t, calls, log, results);
  }

  lemma DoneStep(s: Setup, t: Trace, transcript: seq<Message>, executed: set<string>, calls: seq<ProposedToolCall>,
                 log: seq<Dispatched>, results: seq<Message>)
    requires Running(s, t, transcript, executed, false, true) && BatchRan(s, t, calls, log, results)
    requires ProposedBy(s.oracle, |t.requests| - 1, calls) && |log| == |calls| >= 1
    requires InTime(s, t) && RepairedExactly(s, t)
    requires forall check: nat | |t.requests| + |t.log| <= check < |t.requests| + |t.log| + |log| ::
             !ExpiredAt(s.oracle, check)
    ensures var after := Extended(t, [Round(calls, results)], log);
            && Running(s, after, transcript + [AssistantToolCalls(calls)] + results, executed + Ids(log), false, false)
            && InTime(s, after) && RepairedExactly(s, after)
            && after.requests == t.requests && after.log == t.log + log
  {
    hide *;
    StaysInTimeExtended(s, t, [Round(calls, results)], log);
    RepairStaysDecided(s, t, [Round(calls, results)], log);
    BatchDone(s, t, transcript, executed, calls, log, results);
    ExtendedMeans(s, t, calls, log, results);
  }

  lemma BudgetIsValid(budget: TurnBudget)
    requires budget.Valid()
    ensures budget.modelRequests <= MAX_MODEL_REQUESTS && budget.toolCalls <= MAX_TOOL_CALLS
  {
  }

  lemma NothingSpent(s: Setup)
    ensures WithinBudget(s, Trace([], [], [], false))
  {
  }

  lemma BudgetHolds(s: Setup, t: Trace, modelRequests: nat, toolCalls: nat)
    requires modelRequests == Spent(s.context) + |t.requests| && modelRequests <= MAX_MODEL_REQUESTS
    requires toolCalls == Charged(s.context) + |t.log| && toolCalls <= MAX_TOOL_CALLS
    ensures WithinBudget(s, t)
  {
  }

  lemma WithRequestMeans(t: Trace, request: ModelRequest)
    ensures var after := WithRequest(t, request);
            after.requests == t.requests + [request] && after.log == t.log && after.rounds == t.rounds
              && after.repaired == t.repaired
  {
  }

  lemma ExtendedMeans(s: Setup, t: Trace, calls: seq<ProposedToolCall>, log: seq<Dispatched>, results: seq<Message>)
    ensures Extended(t, [], log).log == t.log + log && Extended(t, [], log).requests == t.requests
    ensures var after := Extended(t, [Round(calls, results)], log);
            && after.requests == t.requests && after.log == t.log + log && after.repaired == t.repaired
            && after.rounds == t.rounds + [Round(calls, results)] && after.Skipped() == t.Skipped()
  {
  }

  lemma InvalidQuestionFails(s: Setup)
    requires !(1 <= |s.question| <= MAX_QUESTION_CHARS)
    ensures FailedFor(s, Trace([], [], [], false), InvalidQuestion)
  {
  }

  lemma ClassificationFails(s: Setup)
    requires Spent(s.context) > MAX_MODEL_REQUESTS
    ensures FailedFor(s, Trace([], [], [], false), OverBudget(BudgetError.ModelRequests))
  {
  }

  lemma DeadlineFails(s: Setup, t: Trace)
    requires ExpiredAt(s.oracle, |t.requests| + |t.log|)
    ensures FailedFor(s, t, Deadline)
  {
  }

  lemma RequestsExhausted(s: Setup, t: Trace)
    requires Spent(s.context) + |t.requests| >= MAX_MODEL_REQUESTS
    ensures FailedFor(s, t, OverBudget(BudgetError.ModelRequests))
  {
  }

  lemma ModelFails(s: Setup, t: Trace, e: ModelError)
    requires t.requests != [] && (t.repaired ==> |t.requests| > 1) && ReplyTo(s.oracle, |t.requests| - 1) == Err(e)
    ensures FailedFor(s, t, ModelFailed(e))
  {
  }

  lemma RoutedStep(oracle: Oracle, n: nat)
    requires n >= 1
    ensures var reply := ReplyTo(oracle, n - 1);
            Routed(oracle, n) == if reply.Ok? && reply.value.routedModel.Some? then reply.value.routedModel
              else Routed(oracle, n - 1)
  {
  }

  lemma Ungrounded(s: Setup, t: Trace)
    requires t.log == [] && t.requests != [] && (t.repaired ==> |t.requests| > 1)
             && ReplyTo(s.oracle, |t.requests| - 1).Ok?
    requires ReplyTo(s.oracle, |t.requests| - 1).value.output.Prose?
    ensures FailedFor(s, t, Rejected(UngroundedResponse))
  {
  }

  lemma Unacceptable(s: Setup, t: Trace, calls: seq<ProposedToolCall>, e: PolicyError)
    requires t.requests != [] && (t.repaired ==> |t.requests| > 1) && ProposedBy(s.oracle, |t.requests| - 1, calls)
    requires Rejects(s.oracle.toolbox, s.context, Charged(s.context) + |t.log|, Ids(t.log), calls, e)
    ensures FailedFor(s, t, Rejected(e))
  {
    hide Rejects;
  }

  lemma Proposes(s: Setup, t: Trace, calls: seq<ProposedToolCall>)
    requires t.requests != [] && ReplyTo(s.oracle, |t.requests| - 1).Ok?
    requires ReplyTo(s.oracle, |t.requests| - 1).value.output == ModelOutput.ToolCalls(calls)
    ensures ProposedBy(s.oracle, |t.requests| - 1, calls)
  {
  }

  /** The outcome of a turn that ends with this prose. */
  function Concluded(image: Option<Image>, context: TurnContext, g: Gathered, routedModel: Option<string>, text: string,
                     modelRequests: nat, toolCalls: nat): TurnOutcome {
    var answer :=
      if image.Some? && context.project.None? && context.classifiedProjectType.Some? && g.proposal.None?
      then IMAGE_DRAFT_NOT_CREATED_ANSWER else text;
    TurnOutcome(answer, g.citations, g.proposal, g.omissions, g.uncertainties, routedModel, modelRequests, toolCalls)
  }

  lemma AnswerReports(s: Setup, t: Trace, text: string)
    requires t.log != [] && CallCount(t.rounds) == |t.log| && |t.requests| == |t.rounds| + t.Skipped() + 1
    requires ReplyTo(s.oracle, |t.requests| - 1).Ok? && ReplyTo(s.oracle, |t.requests| - 1).value.output == Prose(text)
    ensures Answered(s, t, Concluded(s.image, s.context, GatheredFrom(t.log), Routed(s.oracle, |t.requests|), text,
                                     Spent(s.context) + |t.requests|, Charged(s.context) + |t.log|))
  {
    hide GatheredFrom, CallCount, Routed, Spent, Charged;
  }

  method RunTurn(oracle: Oracle, context: TurnContext, question: string, image: Option<Image>)
    returns (r: Result<TurnOutcome, TurnError>, t: Trace)
    ensures Sound(Setup(oracle, context, Trim(question), image), t)
    ensures WithinBudget(Setup(oracle, context, Trim(question), image), t)
    ensures r.Ok? ==> Answered(Setup(oracle, context, Trim(question), image), t, r.value)
    ensures r.Err? ==> FailedFor(Setup(oracle, context, Trim(question), image), t, r.error)
    ensures r == Err(InvalidQuestion) <==> !(1 <= |Trim(question)| <= MAX_QUESTION_CHARS)
    ensures InTime(Setup(oracle, context, Trim(question), image), t)
    ensures RepairedExactly(Setup(oracle, context, Trim(question), image), t)
  {
    hide *;
    var trimmed := Trim(question);
    ghost var s := Setup(oracle, context, trimmed, image);
    t := Trace([], [], [], false);
    Starts(s);
    NothingSpent(s);
    NothingYet(s);
    if !(1 <= |trimmed| <= MAX_QUESTION_CHARS) {
      InvalidQuestionFails(s);
      return Err(InvalidQuestion), t;
    }
    var toolSchemas := SchemasForContext(oracle.toolbox, context);
    var transcript, executed: set<string> := [User(trimmed)], {};
    var gathered := Gathered(None, [], [], [], []);
    var routedModel, remainingImage, repairPending := None, image, false;
    var checks: nat := 0;
    var budget := new TurnBudget();
    var charged := ChargeClassification(context, budget);
    if charged.Err? {
      ClassificationFails(s);
      return Err(OverBudget(charged.error)), t;
    }
    while true
      invariant Running(s, t, transcript, executed, repairPending, false)
      invariant fresh(budget) && budget.Valid()
      invariant budget.modelRequests == Spent(context) + |t.requests| && budget.toolCalls == Charged(context) + |t.log|
      invariant gathered == GatheredFrom(t.log)
      invariant routedModel == Routed(oracle, |t.requests|)
      invariant remainingImage == if t.requests == [] then image else None
      invariant checks == |t.requests| + |t.log| && InTime(s, t) && RepairedExactly(s, t)
      decreases MAX_MODEL_REQUESTS - budget.modelRequests
    {
      RunningMeans(s, t, transcript, executed, repairPending, false);
      BudgetIsValid(budget);
      BudgetHolds(s, t, budget.modelRequests, budget.toolCalls);
      if ExpiredAt(oracle, checks) {
        DeadlineFails(s, t);
        return Err(Deadline), t;
      }
      checks := checks + 1;
      var reserved := budget.ChargeModelRequest();
      if reserved.Err? {
        RequestsExhausted(s, t);
        return Err(OverBudget(reserved.error)), t;
      }
      var repairing := repairPending;
      repairPending := false;
      var instruction := Instruction(gathered.history, repairing);
      var compacted := Compact(transcript, InstructionChars(oracle, instruction));
      if compacted.Err? {
        CompactionFails(s, t, transcript, executed, repairing, compacted.error);
        return Err(OverBudget(compacted.error)), t;
      }
      var request :=
        ModelRequest(instruction, compacted.value, if repairing then image else remainingImage, toolSchemas,
        if repairing then Some(ToolName(StageNewProjectDraft)) else None);
      if !repairing {
        remainingImage := None;
      }
      SentStep(s, t, transcript, executed, repairing, request);
      transcript, t := compacted.value, WithRequest(t, request);
      BudgetIsValid(budget);
      BudgetHolds(s, t, budget.modelRequests, budget.toolCalls);
      var reply := ReplyTo(oracle, |t.requests| - 1);
      RoutedStep(oracle, |t.requests|);
      if reply.Err? {
        NoRepairWithoutCalls(s, t);
        ModelFails(s, t, reply.error);
        return Err(ModelFailed(reply.error)), t;
      }
      if reply.value.routedModel.Some? {
        routedModel := reply.value.routedModel;
      }
      match reply.value.output {
        case Prose(text) =>
          NoRepairWithoutCalls(s, t);
          if executed == {} {
            Ungrounded(s, t);
            return Err(Rejected(UngroundedResponse)), t;
          }
          var outcome := Concluded(image, context, gathered, routedModel, text, budget.modelRequests, budget.toolCalls);
          AnswerReports(s, t, text);
          return Ok(outcome), t;
        case ToolCalls(proposed) =>
          Proposes(s, t, proposed);
          var verdict := Preflight(oracle.toolbox, proposed, context, budget, executed);
          if verdict == Err(InvalidArguments(UnknownField)) && image.Some? && context.project.None?
             && context.classifiedProjectType.Some? && executed == {} && !t.repaired {
            UnknownFieldCausesRepair(s, t, transcript, proposed);
            Repairs(s, t, transcript, executed);
            RepairDecided(s, t);
            t, repairPending := t.(repaired := true), true;
            continue;
          }
          if verdict.Err? {
            NoRepairOfRejected(s, t, transcript, executed, proposed, verdict.error);
            Unacceptable(s, t, proposed, verdict.error);
            return Err(Rejected(verdict.error)), t;
          }
          var accepted := verdict.value;
          NoRepairOfAccepted(s, t, transcript, executed, proposed);
          BatchIsSmall(oracle.toolbox, context, budget.toolCalls, executed, proposed);
          AcceptedIsChecked(s, proposed, accepted);
          var paid := budget.ChargeToolCalls(|accepted|);
          assert paid == Ok(());  // the charge of an accepted batch cannot fail
          ghost var proposedAfter := transcript;
          transcript := transcript + [AssistantToolCalls(proposed)];
          var log, results, after,
            expired := DispatchBatch(oracle, context, accepted, t.log, gathered, |t.log|, checks);
          AcceptedBatchRan(s, t, proposed, accepted, log, results);
          if expired {
            CutStep(s, t, proposedAfter, executed, proposed, log, results);
            t := Extended(t, [], log);
            BudgetIsValid(budget);
            BudgetHolds(s, t, budget.modelRequests, Charged(context) + |t.log|);
            DeadlineFails(s, t);
            return Err(Deadline), t;
          }
          checks := checks + |log|;
          DoneStep(s, t, proposedAfter, executed, proposed, log, results);
          t := Extended(t, [Round(proposed, results)], log);
          transcript, executed, gathered := transcript + results, executed + Ids(log), after;
      }
    }
  }

  // ---- what the trace reports ----

  predicate Reports(oracle: Oracle, k: nat) {
    ReplyTo(oracle, k).Ok? && ReplyTo(oracle, k).value.routedModel.Some?
  }

  /** The routed model is the last one that a reply named. */
  lemma {:induction false} RoutedIsTheLastReported(oracle: Oracle, n: nat)
    ensures Routed(oracle, n).None? ==> forall k: nat | k < n :: !Reports(oracle, k)
    ensures Routed(oracle, n).Some? ==>
              exists k: nat :: k < n && Reports(oracle, k) && ReplyTo(oracle, k).value.routedModel == Routed(oracle, n)
                               && forall j: nat | k < j < n :: !Reports(oracle, j)
  {
    if n > 0 {
      RoutedIsTheLastReported(oracle, n - 1);
      hide ReplyTo;
      if Reports(oracle, n - 1) {
        assert Routed(oracle, n) == ReplyTo(oracle, n - 1).value.routedModel;
      }
    }
  }

  /** A later reference is cited after all earlier ones, unless it was cited before. */
  lemma {:induction false} LaterReferencesComeLater(citations: seq<string>, references: seq<Json>, last: Json)
    ensures var before, id := Cited(citations, references), ControlId(last);
            Cited(citations, references + [last]) ==
              if id.Some? && id.value !in before then before + [id.value] else before
    decreases |references|
  {
    if references == [] {
      assert [] + [last] == [last] && [last][1..] == [];
    } else {
      assert (references + [last])[1..] == references[1..] + [last];
      var id := ControlId(references[0]);
      hide ControlId;
      LaterReferencesComeLater(if id.Some? && id.value !in citations then citations + [id.value] else citations,
        references[1..], last);
    }
  }

  /** The text of one completed action. */
  function ActionText(a: ActionRecord): string {
    ToolName(a.tool) + ":" + a.status
  }

  ghost predicate Shows(text: string, part: string) {
    exists pre: string, post: string :: text == pre + part + post
  }

  lemma ShowsAtEnd(pre: string, part: string)
    ensures Shows(pre + part, part) && Shows(part, part)
  {
    assert pre + part == pre + part + [] && part == [] + part + [];
  }

  lemma ShowsInLonger(text: string, part: string, more: string)
    requires Shows(text, part)
    ensures Shows(text + more, part)
  {
    var pre, post :| text == pre + part + post;
    assert text + more == pre + part + (post + more);
  }

  lemma JoinedOneMore(history: seq<ActionRecord>)
    requires history != []
    ensures var n := |history| - 1;
            Joined(history)
            == if n == 0 then ActionText(history[n]) else Joined(history[..n]) + ", " + ActionText(history[n])
  {
    hide ToolName;
  }

  lemma ShowsWhenJoined(before: string, own: string, part: string)
    requires part == own || Shows(before, part)
    ensures Shows(before + ", " + own, part)
  {
    hide Shows;
    if part == own {
      ShowsAtEnd(before + ", ", own);
    } else {
      ShowsInLonger(before, part, ", ");
      ShowsInLonger(before + ", ", part, own);
    }
  }

  /** The instruction shows every completed action, by tool and status. */
  lemma {:induction false} HistoryShowsEveryAction(history: seq<ActionRecord>, i: nat)
    requires i < |history|
    ensures Shows(FormatActionHistory(history), ActionText(history[i]))
  {
    hide Joined, ActionText, Shows;
    var n := |history| - 1;
    JoinedOneMore(history);
    if n == 0 {
      ShowsAtEnd([], ActionText(history[0]));
    } else {
      if i < n {
        HistoryShowsEveryAction(history[..n], i);
      }
      ShowsWhenJoined(Joined(history[..n]), ActionText(history[n]), ActionText(history[i]));
    }
  }
}
