/** What every assistant turn guarantees, read off the trace that Turn.RunTurn proves sound. */
module TurnResults {
  import opened Wrappers
  import opened Projects
  import opened Budget
  import opened Tools
  import opened Staging
  import opened Policy
  import opened Transcript
  import opened Turn

  /** Every request fits the prompt budget, and its messages are the user message followed by whole
      rounds only, each batch with exactly its own results in order. */
  lemma RequestsFitAndAreWellFormed(s: Setup, t: Trace, k: nat)
    requires Sound(s, t) && k < |t.requests|
    ensures InstructionChars(s.oracle, t.requests[k].instruction)
            + |PromptText(t.requests[k].messages)| <= 128_000
    ensures exists rounds: seq<Round> :: Separate(rounds) && t.requests[k].messages == Whole(s.question, rounds)
  {
    hide Log, RoundsOf, RepairCause, InstructionChars, GatheredFrom, Whole, Separate, MustDrop, PromptText,
      SchemasForContext, ToolName;
    assert RequestOf(s, t, k);
    var n := RoundsBefore(t, k);
    var d: nat :| d <= n && t.requests[k].messages == Whole(s.question, t.rounds[..n][d..])
                  && SuffixFits(s.question, t.rounds[..n], d, InstructionChars(s.oracle, t.requests[k].instruction));
    SliceIsSeparate(t.rounds, n, d);
  }

  lemma SliceIsSeparate(rounds: seq<Round>, n: nat, d: nat)
    requires Separate(rounds) && d <= n <= |rounds|
    ensures Separate(rounds[..n][d..])
  {
    hide Complete, SharesId;
    var slice := rounds[..n][d..];
    assert forall i | 0 <= i < |slice| :: slice[i] == rounds[d + i];
  }

  /** No round is ever lost while it still fits: leaving out fewer rounds would exceed the budget. */
  lemma NothingIsDroppedNeedlessly(s: Setup, t: Trace, k: nat, e: nat)
    requires Sound(s, t) && k < |t.requests| && e <= RoundsBefore(t, k) && RoundsBefore(t, k) <= |t.rounds|
    requires var rounds := t.rounds[..RoundsBefore(t, k)][e..];
             InstructionChars(s.oracle, t.requests[k].instruction)
               + |PromptText(Whole(s.question, rounds))| <= MAX_PROMPT_CONTEXT_CHARS
    ensures exists d: nat :: d <= e && t.requests[k].messages == Whole(s.question, t.rounds[..RoundsBefore(t, k)][d..])
  {
    hide Log, RoundsOf, RepairCause, InstructionChars, GatheredFrom, Whole, Separate, PromptText, SchemasForContext,
      ToolName;
    assert RequestOf(s, t, k);
    var n := RoundsBefore(t, k);
    var chars := InstructionChars(s.oracle, t.requests[k].instruction);
    var d: nat :| d <= n && t.requests[k].messages == Whole(s.question, t.rounds[..n][d..])
      && MustDrop(s.question, t.rounds[..n], d, chars);
    assert SuffixFits(s.question, t.rounds[..n], e, chars);
    assert d <= e;
  }

  /** The repair is attempted at most once, as the second request, before any tool has run, with the
      transcript of the first request; and only then does a second request carry the image. */
  lemma RepairIsOnceAndFirst(s: Setup, t: Trace, k: nat)
    requires Sound(s, t) && k < |t.requests|
    ensures t.requests[k].requiredTool.Some? ==>
              && k == 1 && RepairCause(s)
              && t.requests[1].instruction.history == [] && t.requests[1].messages == t.requests[0].messages
    ensures s.image.Some? ==> (t.requests[k].image == s.image <==> k == 0 || t.requests[k].requiredTool.Some?)
    ensures s.image.None? ==> t.requests[k].image.None?
    ensures !t.requests[k].instruction.repairing <==> t.requests[k].requiredTool.None?
  {
    hide Log, RoundsOf, RepairCause, InstructionChars, Separate, MustDrop, SchemasForContext, ToolName, SuffixFits,
      Whole;
    assert RequestOf(s, t, k);
    if t.repaired && k == 1 {
      assert RequestOf(s, t, 0);
      assert t.rounds[..0] == [] && t.log[..0] == [];
      NoRounds(s.question, InstructionChars(s.oracle, t.requests[0].instruction), t.requests[0].messages);
      NoRounds(s.question, InstructionChars(s.oracle, t.requests[1].instruction), t.requests[1].messages);
    }
  }

  /** And it is attempted whenever its cause arises: the second request, if there is one, is the repair
      exactly when the first batch of a classified image turn was rejected for an unknown member. */
  lemma RepairFollowsItsCause(s: Setup, t: Trace)
    requires Sound(s, t) && RepairedExactly(s, t)
    ensures |t.requests| > 1 ==> (t.requests[1].requiredTool.Some? <==> RepairCause(s))
  {
    hide Log, RoundsOf, Separate, InstructionChars, IsLongestFit, SchemasForContext, ToolName, RepairCause;
    if |t.requests| > 1 {
      assert RequestOf(s, t, 1);
    }
  }

  /** So that rejection never ends such a turn before the repair was attempted. */
  lemma UnknownMemberIsRepairedFirst(s: Setup, t: Trace)
    requires RepairedExactly(s, t) && FailedFor(s, t, Rejected(InvalidArguments(UnknownField))) && t.log == []
    requires s.image.Some? && s.context.project.None? && s.context.classifiedProjectType.Some?
    ensures |t.requests| > 1
  {
    if |t.requests| == 1 {
      FirstRejectionIsCause(s, t);
    }
    hide RepairCause, Rejects;
  }

  lemma FirstRejectionIsCause(s: Setup, t: Trace)
    requires FailedFor(s, t, Rejected(InvalidArguments(UnknownField))) && t.log == [] && |t.requests| == 1
    requires s.image.Some? && s.context.project.None? && s.context.classifiedProjectType.Some?
    ensures RepairCause(s)
  {
    hide Rejects, Charged;
    var reply := ReplyTo(s.oracle, 0).value.output;
    assert Ids(t.log) == {};
    if reply.ToolCalls? {
      assert ProposedBy(s.oracle, 0, reply.calls);
    }
  }

  lemma NoRounds(question: string, instructionChars: nat, ms: seq<Message>)
    requires IsLongestFit(question, [], instructionChars, ms)
    ensures ms == [User(question)]
  {
  }

  /** At most eight model requests and twelve tool calls, those of the classification included, and no
      call identifier is dispatched twice. */
  lemma TurnIsBounded(s: Setup, t: Trace)
    requires Sound(s, t) && WithinBudget(s, t)
    ensures |t.requests| <= 8 && |t.log| <= 12
    ensures forall i, j | 0 <= i < |t.log| && 0 <= j < |t.log| && t.log[i].call.id == t.log[j].call.id :: i == j
    ensures forall i | 0 <= i < |t.log| :: Exposed(s.oracle.toolbox, t.log[i].call.definition.Name(), s.context)
  {
    hide Exposed, RoundsOf, RepairCause, Separate, Requests;
    forall i | 0 <= i < |t.log|
      ensures Exposed(s.oracle.toolbox, t.log[i].call.definition.Name(), s.context)
    {
      assert Legitimate(s.oracle, s.context, i, t.log[i]);
    }
  }

  /** Whatever tools are registered, a call that writes stored state was confirmed by the user. */
  lemma MutationsAreConfirmed(s: Setup, t: Trace, i: nat)
    requires Sound(s, t) && i < |t.log| && t.log[i].call.definition.risk.IsMutating()
    ensures t.log[i].call.definition.Name() in s.context.confirmedActions
  {
    hide Exposed, RoundsOf, RepairCause, Separate, Requests;
    assert Legitimate(s.oracle, s.context, i, t.log[i]);
  }

  /** The proposal of a turn was staged by one of its dispatched calls, faithfully to what that call
      read; it is a patch exactly when a project is selected. */
  lemma ProposalMatchesSelection(s: Setup, t: Trace)
    requires Sound(s, t) && GatheredFrom(t.log).proposal.Some?
    ensures var p := GatheredFrom(t.log).proposal.value;
            && (p.PatchProposal? <==> s.context.project.Some?)
            && exists i: nat :: i < |t.log| && t.log[i].outcome.StagedProposal() == Some(p)
                                && Faithful(ServicesAt(s.oracle, i), s.context, t.log[i].call.input, p)
  {
    hide RoundsOf, RepairCause, Separate, Requests, ServicesAt, Checked, Exposed;
    var p := GatheredFrom(t.log).proposal.value;
    ProposalIsTheLastStaged(t.log);
    var i: nat :| i < |t.log| && t.log[i].outcome.StagedProposal() == Some(p);
    assert Legitimate(s.oracle, s.context, i, t.log[i]);
    StagedProposalIsFaithful(ServicesAt(s.oracle, i), s.context, t.log[i].call.input);
    hide Outcome, GatheredFrom;
    FaithfulKind(ServicesAt(s.oracle, i), s.context, t.log[i].call.input, p);
  }

  lemma FaithfulKind(services: Services, context: TurnContext, input: ToolInput, p: Proposal)
    requires Faithful(services, context, input, p)
    ensures p.PatchProposal? <==> context.project.Some?
  {
  }

  /** In a classified turn the draft and all its workloads have the type the host classified. */
  lemma ClassifiedDraftHasHostType(s: Setup, t: Trace)
    requires Sound(s, t) && s.context.classifiedProjectType.Some?
    requires GatheredFrom(t.log).proposal.Some? && GatheredFrom(t.log).proposal.value.DraftProposal?
    ensures var draft, host := GatheredFrom(t.log).proposal.value.project, s.context.classifiedProjectType.value;
            && draft.settings.projectType == host
            && (forall r | r in draft.resources :: r.sourceType == host)
            && (draft.resources == [] <==> host == SqlPayg)
  {
    ProposalMatchesSelection(s, t);
    hide RoundsOf, RepairCause, Separate, Requests, ServicesAt, Checked, Exposed, GatheredFrom, Outcome;
    var p := GatheredFrom(t.log).proposal.value;
    var i: nat :| i < |t.log| && Faithful(ServicesAt(s.oracle, i), s.context, t.log[i].call.input, p);
    assert Legitimate(s.oracle, s.context, i, t.log[i]);
  }

  /** The result of this call: its identifier, the name of its tool, and its serialized outcome or the code
      that replaces it. */
  ghost predicate IsResultOf(s: Setup, n: nat, d: Dispatched, m: Message) {
    && m.ToolResult? && m.callId == d.call.id && m.toolName == ToolName(d.call.definition.tool)
    && var serialized := ServicesAt(s.oracle, n).serialize(d.outcome);
    && (serialized.Some? && |serialized.value| <= 8_000 ==> m.content == serialized.value)
    && |m.content| <= 8_000
  }

  lemma RoundShowsOutcomes(s: Setup, log: seq<Dispatched>, start: nat, r: Round, j: nat)
    requires RoundOf(s.oracle, s.context, log, start, r) && j < |r.calls|
    ensures log[start + j].call.id == r.calls[j].id && log[start + j].call.definition.Name() == r.calls[j].name
            && IsResultOf(s, start + j, log[start + j], r.results[j])
  {
    FoundHasName(s.oracle.toolbox, r.calls[j].name);
    hide Find, ParseInput, IsAcceptableCallId, Available, ToolName, ServicesAt;
    assert log[start + j].call == Validated(s.oracle.toolbox, s.context, r.calls[j]);
    assert r.results[j] == ResultMessage(s.oracle, start + j, log[start + j]);
  }

  lemma {:induction false} RoundsShowOutcomes(s: Setup, log: seq<Dispatched>, rounds: seq<Round>, skipped: nat, k: nat,
                                              j: nat)
    requires RoundsOf(s.oracle, s.context, log, rounds, skipped) && k < |rounds| && j < |rounds[k].calls|
    requires j < |rounds[k].results|
    ensures exists i: nat :: i < |log| && log[i].call.id == rounds[k].calls[j].id
                             && log[i].call.definition.Name() == rounds[k].calls[j].name
                             && IsResultOf(s, i, log[i], rounds[k].results[j])
    decreases |rounds|
  {
    var n := |rounds| - 1;
    var start := |log| - |rounds[n].calls|;
    hide ProposedBy, IsResultOf;
    if k == n {
      RoundShowsOutcomes(s, log, start, rounds[n], j);
    } else {
      RoundsShowOutcomes(s, log[..start], rounds[..n], skipped, k, j);
    }
  }

  /** The model reads, for every call of every round, the outcome that its tool had. */
  lemma ResultsAreTheirOutcomes(s: Setup, t: Trace, k: nat, j: nat)
    requires Sound(s, t) && k < |t.rounds| && j < |t.rounds[k].calls|
    ensures j < |t.rounds[k].results|
    ensures exists i: nat :: i < |t.log| && t.log[i].call.id == t.rounds[k].calls[j].id
                             && t.log[i].call.definition.Name() == t.rounds[k].calls[j].name
                             && IsResultOf(s, i, t.log[i], t.rounds[k].results[j])
  {
    hide RoundsOf, IsResultOf, Log, Requests, RepairCause, SharesId;
    assert t.rounds[k] in t.rounds && Complete(t.rounds[k]);
    RoundsShowOutcomes(s, t.log[..CallCount(t.rounds)], t.rounds, t.Skipped(), k, j);
  }
}
