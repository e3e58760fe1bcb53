/** Binding of proposals and the image route: rust/src/api/assistant.rs. */
module AssistantApi {
  import opened Wrappers
  import opened Text
  import opened Projects
  import opened Budget
  import opened Tools
  import opened Staging
  import opened Turn
  import opened TurnResults
  import opened Classification
  import opened Diff
  import ConfirmedAction

  // ---- binding ----

  /** The digest of a new draft is that of its owner and content. */
  datatype BoundProposal =
    | BoundPatch(id: ConfirmedAction.ProposalId, expectedEtag: nat, patch: ProjectPatch, changes: seq<PatchChange>)
    | BoundDraft(owner: string, project: EditableProject)

  datatype Problem = InternalError

  function BindProposal(ownerId: string, selected: Option<SelectedProject>, p: Proposal)
    : Result<BoundProposal, Problem>
  {
    match p
    case PatchProposal(patch, changes) =>
      if selected.None? then Err(InternalError)
      else
        var project := selected.value;
        Ok(BoundPatch(ConfirmedAction.ProposalId(ownerId, project.id, project.etag, patch), project.etag, patch,
          changes))
    case DraftProposal(project) =>
      if selected.Some? then Err(InternalError) else Ok(BoundDraft(ownerId, project))
  }

  /** The proposal that a bound one shows to the user. */
  function BoundContent(bound: BoundProposal): Proposal {
    match bound
    case BoundPatch(_, _, patch, changes) => PatchProposal(patch, changes)
    case BoundDraft(_, project) => DraftProposal(project)
  }

  /** Whatever the model does, binding the proposal of a turn never reaches an internal error, shows
      that very proposal, and a bound patch is confirmed under the owner, project and ETag that the host
      selected. */
  lemma BindingNeverFails(s: Setup, t: Trace)
    requires Sound(s, t) && GatheredFrom(t.log).proposal.Some?
    ensures var bound := BindProposal(s.context.ownerId, s.context.project, GatheredFrom(t.log).proposal.value);
            && bound.Ok?
            && (s.context.project.Some? ==>
                  bound.value.BoundPatch?
                  && var project := s.context.project.value;
                  && bound.value.id ==
                     ConfirmedAction.ProposalId(s.context.ownerId, project.id, project.etag, bound.value.patch)
                  && bound.value.expectedEtag == bound.value.id.etag)
            && BoundContent(bound.value) == GatheredFrom(t.log).proposal.value
            && (bound.value.BoundDraft? ==> bound.value.owner == s.context.ownerId)
  {
    ProposalMatchesSelection(s, t);
    hide Sound, GatheredFrom, Faithful, ServicesAt;
  }

  /** A confirmation sent back as it was bound passes the identifier check of the action handler. */
  lemma BoundPatchIsAcceptedByAction(st: ConfirmedAction.State, bound: BoundProposal, selected: SelectedProject,
                                     p: Proposal)
    requires selected.id == st.projectId && BindProposal(st.owner, Some(selected), p) == Ok(bound)
    ensures bound.BoundPatch? <==> p.PatchProposal?
    ensures bound.BoundPatch? ==>
              var request := ConfirmedAction.ActionRequest(true, bound.id, bound.expectedEtag, bound.patch);
              ConfirmedAction.StepAfter(st, request, ConfirmedAction.CheckRequest, false, true, 0)
                == ConfirmedAction.ReadBase
  {
  }

  // ---- the image route ----

  datatype ImageReply =
    | NeedsReview(undecided: ImageClassification, uncertainties: seq<string>)
    | Answer(outcome: TurnOutcome, classification: Option<ImageClassification>)

  /** What the route spent: requests to the classifier, and the turn's own trace. */
  datatype Usage = Usage(classifierRequests: nat, context: TurnContext, trace: Trace)

  /** Classification, when no project is selected, and then the turn that is charged for it. */
  method Image(classifier: Classifier, oracle: Oracle, context: TurnContext, question: string, image: Image)
    returns (r: Result<ImageReply, TurnError>, usage: Usage)
    requires context.classifiedProjectType.None?
    ensures Sound(Setup(oracle, usage.context, Trim(question), Some(image)), usage.trace)
    ensures usage.classifierRequests + |usage.trace.requests| <= MAX_MODEL_REQUESTS
    ensures (if usage.context.classifiedProjectType.Some? then 1 else 0) + |usage.trace.log| <= MAX_TOOL_CALLS
    ensures usage.context.project == context.project && usage.context.ownerId == context.ownerId
    ensures context.project.Some? ==> usage.classifierRequests == 0 && usage.context == context
    ensures r.Ok? && r.value.Answer? ==>
              && Answered(Setup(oracle, usage.context, Trim(question), Some(image)), usage.trace, r.value.outcome)
              && r.value.outcome.modelRequests == usage.classifierRequests + |usage.trace.requests|
              && (context.project.None? ==>
                    && r.value.classification.Some?
                    && usage.context.classifiedProjectType == r.value.classification.value.ResolvedProjectType()
                    && usage.context.classifiedProjectType.Some?)
    ensures r.Ok? && r.value.NeedsReview? ==>
              && context.project.None? && usage.trace.requests == []
              && r.value.undecided.ResolvedProjectType().None? && r.value.uncertainties != []
              && (r.value.undecided.ambiguities != [] ==> r.value.uncertainties == r.value.undecided.ambiguities)
  {
    hide Sound, Answered, WithinBudget, FailedFor, Spent, Charged, Trim, GatheredFrom, CallCount;
    var turnContext := context;
    var classification: Option<ImageClassification> := None;
    var empty := Trace([], [], [], false);
    Starts(Setup(oracle, context, Trim(question), Some(image)));
    usage := Usage(0, context, empty);
    if context.project.None? {
      var classified, sent := ClassifyProjectImage(classifier);
      usage := Usage(sent, context, empty);
      if classified.Err? {
        return Err(ModelFailed(classified.error)), usage;
      }
      var outcome := classified.value;
      classification := Some(outcome.classification);
      var resolved := outcome.classification.ResolvedProjectType();
      if resolved.None? {
        var uncertainties := outcome.classification.ambiguities;
        if uncertainties == [] {
          uncertainties := ["no_decisive_marker"];
        }
        return Ok(NeedsReview(outcome.classification, uncertainties)), usage;
      }
      turnContext := context.(classifiedProjectType := resolved, classificationModelRequests := outcome.modelRequests);
    }
    ghost var s := Setup(oracle, turnContext, Trim(question), Some(image));
    var turn, trace := RunTurn(oracle, turnContext, question, Some(image));
    usage := Usage(usage.classifierRequests, turnContext, trace);
    BudgetOf(s, trace);
    if turn.Err? {
      return Err(turn.error), usage;
    }
    AnswerCounts(s, trace, turn.value);
    return Ok(Answer(turn.value, classification)), usage;
  }

  lemma BudgetOf(s: Setup, t: Trace)
    requires WithinBudget(s, t)
    ensures t.requests != [] ==>
            (if s.context.classifiedProjectType.Some? then s.context.classificationModelRequests else 0)
            + |t.requests| <= MAX_MODEL_REQUESTS
    ensures (if s.context.classifiedProjectType.Some? then 1 else 0) + |t.log| <= MAX_TOOL_CALLS
  {
  }

  lemma AnswerCounts(s: Setup, t: Trace, o: TurnOutcome)
    requires Answered(s, t, o)
    ensures o.modelRequests
            == (if s.context.classifiedProjectType.Some? then s.context.classificationModelRequests else 0)
            + |t.requests|
  {
    hide GatheredFrom, CallCount;
  }
}
