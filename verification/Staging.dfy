/** Dispatch of preflighted tool calls and the staging of proposals: rust/src/assistant/tools.rs.

    What the surrounding services answer is a parameter, and so is the content of a new draft beyond
    its project and source types. */
module Staging {
  import opened Wrappers
  import opened Json
  import opened Projects
  import opened Tools
  import opened Diff
  import opened Budget

  type Issue = string

  datatype Proposal =
    | PatchProposal(patch: ProjectPatch, changes: seq<PatchChange>)
    | DraftProposal(project: EditableProject)

  datatype ToolOutcome =
    | Completed(result: Json)
    | Staged(proposal: Option<Proposal>, omissions: seq<string>, uncertainties: seq<string>)
    | Invalid(errors: seq<Issue>)
    | Unavailable(code: string)
    | Error(code: string)
  {
    function StagedProposal(): Option<Proposal> {
      if Staged? then proposal else None
    }

    function HistoryStatus(): string {
      match this
      case Completed(_) => "completed"
      case Staged(p, _, _) => if p.Some? then "staged" else "reported"
      case Invalid(_) => "invalid"
      case Unavailable(_) => "unavailable"
      case Error(_) => "error"
    }
  }

  datatype ReadFailure = NotFound | StorageFailure

  datatype Services = Services(
    capabilities: Json,
    explainControl: string -> Option<Json>,
    answerQuestion: string -> Result<Json, seq<Issue>>,
    stored: Result<EditableProject, ReadFailure>,
    view: EditableProject -> Json,
    validate: EditableProject -> seq<Issue>,
    slotFree: bool,
    calculate: EditableProject -> Option<Json>,
    catalogHasMemory: string -> bool,
    draftName: StageDraftInput -> string,
    draftSettings: StageDraftInput -> map<string, Json>,
    draftResource: NewResourceInput -> map<string, Json>,
    hostNotes: StageDraftInput -> seq<string>,
    serialize: ToolOutcome -> Option<string>)

  const EC2_CATALOG_RAM_UNAVAILABLE := "ec2_catalog_ram_unavailable"
  const DEFAULT_INSTANCE_TYPE := "r6id.8xlarge"

  // ---- reads ----

  function Help(services: Services, input: HelpInput): ToolOutcome {
    match input.controlId
    case Some(controlId) =>
      var response := services.explainControl(controlId);
      if response.Some? then Completed(response.value) else Error("unknown_control_id")
    case None =>
      var response := services.answerQuestion(input.question);
      if response.Ok? then Completed(response.value) else Invalid(response.error)
  }

  /** The selected project as stored when the call runs, or the outcome that reports why there is none. */
  function ReadSelectedProject(services: Services, context: TurnContext): Result<EditableProject, ToolOutcome> {
    if context.project.None? then Err(Unavailable("no_selected_project"))
    else match services.stored
      case Ok(project) => Ok(project)
      case Err(NotFound) => Err(Error("project_not_found"))
      case Err(StorageFailure) => Err(Unavailable("storage_unavailable"))
  }

  function Validate(services: Services, context: TurnContext, patch: ProjectPatch): ToolOutcome {
    var project := ReadSelectedProject(services, context);
    if project.Err? then project.error else
      var issues := services.validate(Apply(patch, project.value));
      if issues == [] then Completed(Bool(true)) else Invalid(issues)
  }

  function Calculate(services: Services, context: TurnContext, patch: ProjectPatch): ToolOutcome {
    var project := ReadSelectedProject(services, context);
    if project.Err? then project.error else
      var candidate := Apply(patch, project.value);
      var issues := services.validate(candidate);
      if issues != [] then Invalid(issues)
      else if !services.slotFree then Unavailable("calculation_busy")
      else
        var revision := services.calculate(candidate);
        if revision.Some? then Completed(revision.value) else Error("calculation_failed")
  }

  // ---- staging a patch ----

  ghost function PatchOutcome(services: Services, context: TurnContext, input: StagePatchInput): ToolOutcome {
    var project := ReadSelectedProject(services, context);
    if project.Err? then project.error else
      var candidate := Apply(input.patch, project.value);
      var issues := services.validate(candidate);
      var diff := PatchDiff(project.value, candidate, input.patch);
      if issues != [] then Invalid(issues)
      else if |diff| > MAX_PROPOSAL_CHANGES then Invalid(["limit"])
      else if diff == [] && input.omissions == [] && input.uncertainties == [] then Invalid(["required"])
      else Staged(if diff == [] then None
        else Some(PatchProposal(input.patch, Rendered(diff))), input.omissions, input.uncertainties)
  }

  method StagePatch(services: Services, context: TurnContext, input: StagePatchInput) returns (outcome: ToolOutcome)
    ensures outcome == PatchOutcome(services, context, input)
  {
    var project := ReadSelectedProject(services, context);
    if project.Err? {
      return project.error;
    }
    var candidate := Apply(input.patch, project.value);
    var issues := services.validate(candidate);
    if issues != [] {
      return Invalid(issues);
    }
    hide Apply, PatchDiff, Rendered;
    var changes := ProjectPatchChanges(project.value, candidate, input.patch);
    if changes.Err? {
      return Invalid(["limit"]);
    }
    if changes.value == [] && input.omissions == [] && input.uncertainties == [] {
      return Invalid(["required"]);
    }
    return Staged(if changes.value == [] then None
      else Some(PatchProposal(input.patch, changes.value)), input.omissions, input.uncertainties);
  }

  // ---- staging a new draft ----

  function InstanceTypeOf(r: NewResourceInput): string {
    if InstanceType in r.given && r.given[InstanceType].String? then r.given[InstanceType].text
      else DEFAULT_INSTANCE_TYPE
  }

  predicate CatalogMemoryMissing(services: Services, input: StageDraftInput) {
    && (input.projectType == Ec2 || input.projectType == Ec2Vm)
    && if input.resources == [] then !services.catalogHasMemory(DEFAULT_INSTANCE_TYPE)
       else exists r | r in input.resources ::
         SourceRamGbPerInstance !in r.given && !services.catalogHasMemory(InstanceTypeOf(r))
  }

  /** new_resource, which aborts for SQL pay-as-you-go: its callers must not pass one. */
  function NewResource(services: Services, r: NewResourceInput): Resource
    requires r.sourceType != SqlPayg
  {
    Resource(r.sourceType, services.draftResource(r))
  }

  function NewProjectDraft(services: Services, input: StageDraftInput): EditableProject
    requires Checked(ToolInput.StageDraft(input))
  {
    var resources :=
      if input.projectType == SqlPayg then []
      else if input.resources == [] then [NewResource(services, NewResourceInput(input.projectType, map[]))]
      else seq(|input.resources|, i requires 0 <= i < |input.resources| => NewResource(services, input.resources[i]));
    EditableProject(services.draftName(input), input.description,
      Settings(input.projectType, services.draftSettings(input)),
      resources, None, None)
  }

  function StageDraft(services: Services, context: TurnContext, input: StageDraftInput): ToolOutcome
    requires Checked(ToolInput.StageDraft(input))
  {
    if context.project.Some? then Unavailable("project_already_selected")
    else if CatalogMemoryMissing(services, input) then
      Staged(None, input.omissions,
        input.uncertainties + if |input.uncertainties| < MAX_EXTRACTION_NOTES then [EC2_CATALOG_RAM_UNAVAILABLE]
          else [])
    else
      var project := NewProjectDraft(services, input);
      var issues := services.validate(project);
      if issues != [] then Invalid(issues)
      else Staged(Some(DraftProposal(project)), input.omissions, input.uncertainties + services.hostNotes(input))
  }

  // ---- dispatch ----

  ghost function Outcome(services: Services, context: TurnContext, input: ToolInput): ToolOutcome
    requires Checked(input)
  {
    match input
    case AgentCapabilities => Completed(services.capabilities)
    case ApplicationHelp(help) => Help(services, help)
    case CurrentProject =>
      var project := ReadSelectedProject(services, context);
      if project.Err? then project.error else Completed(services.view(project.value))
    case ValidatePatch(patch) => Validate(services, context, patch)
    case CalculateDraft(patch) => Calculate(services, context, patch)
    case StagePatch(staged) => PatchOutcome(services, context, staged)
    case StageDraft(draft) => StageDraft(services, context, draft)
  }

  method Dispatch(services: Services, context: TurnContext, input: ToolInput) returns (outcome: ToolOutcome)
    requires Checked(input)
    ensures outcome == Outcome(services, context, input)
  {
    match input {
      case AgentCapabilities => outcome := Completed(services.capabilities);
      case ApplicationHelp(help) => outcome := Help(services, help);
      case CurrentProject =>
        var project := ReadSelectedProject(services, context);
        outcome := if project.Err? then project.error else Completed(services.view(project.value));
      case ValidatePatch(patch) => outcome := Validate(services, context, patch);
      case CalculateDraft(patch) => outcome := Calculate(services, context, patch);
      case StagePatch(staged) => outcome := StagePatch(services, context, staged);
      case StageDraft(draft) => outcome := StageDraft(services, context, draft);
    }
  }

  /** What a proposal can be in a turn: a patch of the stored selected project together with exactly
      the changes it makes, or, when no project is selected, a valid draft of one project type. */
  ghost predicate Faithful(services: Services, context: TurnContext, input: ToolInput, p: Proposal) {
    match p
    case PatchProposal(patch, changes) =>
      && context.project.Some? && services.stored.Ok?
      && var base := services.stored.value;
      var candidate := Apply(patch, base);
      && services.validate(candidate) == []
      && ToValue(base) != ToValue(candidate)
      && 0 < |changes| <= MAX_PROPOSAL_CHANGES && PointersSeparate(changes)
      && Replay(Some(ToValue(base)), Parsed(changes)) == Some(ToValue(candidate))
    case DraftProposal(project) =>
      && context.project.None?
      && services.validate(project) == []
      && (forall r | r in project.resources :: r.sourceType == project.settings.projectType != SqlPayg)
      && input.StageDraft? && project.settings.projectType == input.draft.projectType
      && (project.resources == [] <==> project.settings.projectType == SqlPayg)
  }

  lemma StagedProposalIsFaithful(services: Services, context: TurnContext, input: ToolInput)
    requires Checked(input)
    ensures var p := Outcome(services, context, input).StagedProposal();
            p.Some? ==> Faithful(services, context, input, p.value)
  {
    if input.StagePatch? {
      PatchProposalIsFaithful(services, context, input.staged);
    } else if input.StageDraft? {
      DraftProposalIsFaithful(services, context, input.draft);
    }
  }

  lemma PatchProposalIsFaithful(services: Services, context: TurnContext, input: StagePatchInput)
    ensures var p := PatchOutcome(services, context, input).StagedProposal();
            p.Some? ==> Faithful(services, context, ToolInput.StagePatch(input), p.value)
  {
    hide *;
    PatchOutcomeMeans(services, context, input);
    var p := PatchOutcome(services, context, input).StagedProposal();
    if p.Some? {
      var base := services.stored.value;
      PatchChangesRebuildCandidate(base, input.patch);
      PatchIsFaithful(services, context, input, p.value);
    }
  }

  lemma PatchOutcomeMeans(services: Services, context: TurnContext, input: StagePatchInput)
    ensures var p := PatchOutcome(services, context, input).StagedProposal();
            p.Some? ==>
              && context.project.Some? && services.stored.Ok?
              && var base := services.stored.value;
              var candidate := Apply(input.patch, base);
              && p.value == PatchProposal(input.patch, Rendered(PatchDiff(base, candidate, input.patch)))
              && services.validate(candidate) == []
              && 0 < |Rendered(PatchDiff(base, candidate, input.patch))| <= MAX_PROPOSAL_CHANGES
  {
    hide Apply, PatchDiff, Rendered;
  }

  lemma PatchIsFaithful(services: Services, context: TurnContext, input: StagePatchInput, p: Proposal)
    requires p.PatchProposal? && p.patch == input.patch && context.project.Some? && services.stored.Ok?
    requires var base := services.stored.value;
             var candidate := Apply(input.patch, base);
             && services.validate(candidate) == [] && ToValue(base) != ToValue(candidate)
             && 0 < |p.changes| <= MAX_PROPOSAL_CHANGES && PointersSeparate(p.changes)
             && Replay(Some(ToValue(base)), Parsed(p.changes)) == Some(ToValue(candidate))
    ensures Faithful(services, context, ToolInput.StagePatch(input), p)
  {
    hide Apply, ToValue, Replay, Parsed, PointersSeparate;
  }

  lemma DraftProposalIsFaithful(services: Services, context: TurnContext, input: StageDraftInput)
    requires Checked(ToolInput.StageDraft(input))
    ensures var p := StageDraft(services, context, input).StagedProposal();
            p.Some? ==> Faithful(services, context, ToolInput.StageDraft(input), p.value)
  {
    var project := NewProjectDraft(services, input);
    forall r | r in project.resources
      ensures r.sourceType == input.projectType != SqlPayg
    {
    }
    if input.projectType == SqlPayg {
      assert forall r | r in input.resources :: false;
    }
  }

  /** Only the two staging tools stage. */
  lemma OnlyStagingToolsStage(services: Services, context: TurnContext, input: ToolInput)
    requires Checked(input) && Outcome(services, context, input).Staged?
    ensures input.StagePatch? || input.StageDraft?
  {
    hide PatchOutcome, StageDraft, Apply, Checked;
  }

  /** What a staged patch reports is what the model reported; without a change it must report something. */
  lemma StagedPatchReportsNotes(services: Services, context: TurnContext, input: StagePatchInput)
    requires PatchOutcome(services, context, input).Staged?
    ensures var outcome := PatchOutcome(services, context, input);
            && outcome.omissions == input.omissions && outcome.uncertainties == input.uncertainties
            && (outcome.proposal.Some? || input.omissions != [] || input.uncertainties != [])
  {
    hide Apply, PatchDiff, Rendered;
  }

  /** What a staged draft reports is what the model reported, with the host's own uncertainties after it;
      without a proposal the reason is missing catalog memory. */
  lemma StagedDraftReportsNotes(services: Services, context: TurnContext, input: StageDraftInput)
    requires Checked(ToolInput.StageDraft(input)) && StageDraft(services, context, input).Staged?
    ensures var outcome := StageDraft(services, context, input);
            && outcome.omissions == input.omissions && input.uncertainties <= outcome.uncertainties
            && (outcome.proposal.None? <==> CatalogMemoryMissing(services, input))
  {
    hide NewProjectDraft, CatalogMemoryMissing, Checked;
  }

  // ---- bounded results ----

  function ToBoundedJson(services: Services, outcome: ToolOutcome): (content: string)
    ensures |content| <= MAX_TOOL_RESULT_CHARS
    ensures services.serialize(outcome).Some? && |services.serialize(outcome).value| <= MAX_TOOL_RESULT_CHARS ==>
              content == services.serialize(outcome).value
    ensures services.serialize(outcome).None? ==>
              content == "{\"status\":\"error\",\"code\":\"result_not_serializable\"}"
    ensures services.serialize(outcome).Some? && |services.serialize(outcome).value| > MAX_TOOL_RESULT_CHARS ==>
              content == "{\"status\":\"error\",\"code\":\"result_too_large\"}"
  {
    var serialized := services.serialize(outcome);
    if serialized.None? then "{\"status\":\"error\",\"code\":\"result_not_serializable\"}"
    else if |serialized.value| > MAX_TOOL_RESULT_CHARS then "{\"status\":\"error\",\"code\":\"result_too_large\"}"
    else serialized.value
  }

  // ---- what each tool answers ----

  /** Validation and calculation work on the stored selected project with the patch applied: what comes back
      is the verdict on that candidate, and its price. */
  lemma PatchedCandidateIsChecked(services: Services, context: TurnContext, patch: ProjectPatch)
    requires context.project.Some? && services.stored.Ok?
    ensures var validated := Outcome(services, context, ValidatePatch(patch));
            var priced := Outcome(services, context, CalculateDraft(patch));
            var candidate := Apply(patch, services.stored.value);
            var issues := services.validate(candidate);
            && (validated == Completed(Bool(true)) <==> issues == [])
            && (issues != [] ==> validated == priced == Invalid(issues))
            && (priced.Completed? <==> issues == [] && services.slotFree && services.calculate(candidate).Some?)
            && (priced.Completed? ==> services.calculate(candidate) == Some(priced.result))
            && (priced == Unavailable("calculation_busy") <==> issues == [] && !services.slotFree)
  {
    hide Apply;
  }

  /** The project that is shown is the stored selected one. */
  lemma StoredProjectIsShown(services: Services, context: TurnContext)
    requires context.project.Some? && services.stored.Ok?
    ensures Outcome(services, context, CurrentProject) == Completed(services.view(services.stored.value))
  {
  }

  /** Without a stored selected project, every tool that needs one reports why and nothing else. */
  lemma WithoutProjectNothingIsChecked(services: Services, context: TurnContext, input: ToolInput)
    requires Checked(input)
    requires input.CurrentProject? || input.ValidatePatch? || input.CalculateDraft? || input.StagePatch?
    requires context.project.None? || services.stored.Err?
    ensures Outcome(services, context, input) ==
              if context.project.None? then Unavailable("no_selected_project")
              else if services.stored.error == NotFound then Error("project_not_found")
              else Unavailable("storage_unavailable")
  {
    hide Apply, PatchDiff, Rendered, Checked;
  }

  /** A question about a control is answered from its description, and any other question from the catalog;
      a question that names an unknown control is an error. */
  lemma HelpExactly(services: Services, context: TurnContext, input: HelpInput)
    requires Checked(ApplicationHelp(input))
    ensures var answer := Outcome(services, context, ApplicationHelp(input));
            && (answer.Completed? <==>
                  if input.controlId.Some? then services.explainControl(input.controlId.value).Some?
                  else services.answerQuestion(input.question).Ok?)
            && (answer.Completed? ==>
                  if input.controlId.Some? then
                    services.explainControl(input.controlId.value) == Some(answer.result)
                  else services.answerQuestion(input.question) == Ok(answer.result))
            && (answer.Error? <==>
                  input.controlId.Some? && services.explainControl(input.controlId.value).None?)
  {
    hide Checked;
  }

  /** A patch is staged exactly when its candidate is valid and does not differ in more than 500 places; it
      is proposed when it changes something, and otherwise only its notes are reported, of which there must
      be one. */
  lemma PatchIsStagedExactly(services: Services, context: TurnContext, input: StagePatchInput)
    requires context.project.Some? && services.stored.Ok? && Checked(ToolInput.StagePatch(input))
    ensures var outcome := Outcome(services, context, ToolInput.StagePatch(input));
            var base := services.stored.value;
            var candidate := Apply(input.patch, base);
            var issues := services.validate(candidate);
            var fits := |PatchDiff(base, candidate, input.patch)| <= 500;
            && (issues != [] ==> outcome == Invalid(issues))
            && (outcome.StagedProposal().Some? <==> issues == [] && fits && ToValue(base) != ToValue(candidate))
            && (outcome.Staged? && outcome.proposal.None? <==>
                  && issues == [] && fits && ToValue(base) == ToValue(candidate)
                  && (input.omissions != [] || input.uncertainties != []))
            && (issues == [] && !fits ==> outcome == Invalid(["limit"]))
            && (issues == [] && fits && ToValue(base) == ToValue(candidate) && input.omissions == []
                && input.uncertainties == [] ==>
                  outcome == Invalid(["required"]))
  {
    hide Apply, PatchDiff, Rendered, Parsed, Replay, Mirror, PointersSeparate, ToValue, Checked;
    PatchChangesRebuildCandidate(services.stored.value, input.patch);
    NothingRendered(PatchDiff(services.stored.value, Apply(input.patch, services.stored.value), input.patch));
  }

  lemma NothingRendered(cs: seq<Change>)
    ensures Rendered(cs) == [] <==> cs == []
  {
    hide Rendered;
    assert |Rendered(cs)| == |cs|;
  }

  /** The status a call leaves in the history tells the outcomes apart, and whether something was staged. */
  lemma StatusTellsOutcome(a: ToolOutcome, b: ToolOutcome)
    requires a.HistoryStatus() == b.HistoryStatus()
    ensures a.Completed? == b.Completed? && a.Staged? == b.Staged? && a.Invalid? == b.Invalid?
            && a.Unavailable? == b.Unavailable? && a.Error? == b.Error?
    ensures a.StagedProposal().Some? == b.StagedProposal().Some?
  {
    var x, y := a.HistoryStatus(), b.HistoryStatus();
    assert |x| == |y| && x[0] == y[0] && x[2] == y[2];
  }

  /** The workloads a draft is made of: the proposed ones, or one of the project type. */
  function DraftWorkloads(input: StageDraftInput): seq<NewResourceInput> {
    if input.resources == [] then [NewResourceInput(input.projectType, map[])] else input.resources
  }

  /** A draft of a project with workloads has one for each proposed one, in order, of its type and content;
      a SQL pay-as-you-go draft has none. */
  lemma DraftKeepsWorkloads(services: Services, input: StageDraftInput)
    requires Checked(ToolInput.StageDraft(input))
    ensures var project, inputs := NewProjectDraft(services, input), DraftWorkloads(input);
            && (input.projectType == SqlPayg ==> project.resources == [])
            && (input.projectType != SqlPayg ==>
                  && |project.resources| == |inputs|
                  && forall i | 0 <= i < |inputs| ::
                    project.resources[i].sourceType == inputs[i].sourceType
                    && project.resources[i].fields == services.draftResource(inputs[i]))
            && project.settings.projectType == input.projectType
            && project.settings.fields == services.draftSettings(input)
            && project.name == services.draftName(input) && project.description == input.description
            && project.awsPriceSnapshotId.None? && project.azurePriceSnapshotId.None?
  {
  }

  /** One of the EC2 workloads of a draft comes without memory, and its instance type, r6id.8xlarge unless it
      names another, has none in the catalog either. */
  predicate LacksMemory(services: Services, input: StageDraftInput) {
    && (input.projectType == Ec2 || input.projectType == Ec2Vm)
    && exists w | w in DraftWorkloads(input) ::
      SourceRamGbPerInstance !in w.given
      && !services.catalogHasMemory(
        if InstanceType in w.given && w.given[InstanceType].String? then w.given[InstanceType].text
        else "r6id.8xlarge")
  }

  lemma MissingMeansLacks(services: Services, input: StageDraftInput)
    ensures CatalogMemoryMissing(services, input) <==> LacksMemory(services, input)
  {
    if input.resources == [] {
      var w := NewResourceInput(input.projectType, map[]);
      assert w in DraftWorkloads(input);
    }
  }

  /** Without a selected project, a draft is staged exactly when it is withheld for missing memory or it is
      valid, and is proposed in the second case. */
  lemma DraftIsStagedExactly(services: Services, context: TurnContext, input: StageDraftInput)
    requires Checked(ToolInput.StageDraft(input))
    ensures var outcome := Outcome(services, context, ToolInput.StageDraft(input));
            var draft := NewProjectDraft(services, input);
            var issues := services.validate(draft);
            && (context.project.Some? ==> outcome == Unavailable("project_already_selected"))
            && (context.project.None? && !LacksMemory(services, input) && issues != [] ==> outcome == Invalid(issues))
            && (outcome.Staged? && outcome.proposal.None? <==>
                  context.project.None? && LacksMemory(services, input))
            && (outcome.StagedProposal() == Some(DraftProposal(draft)) <==>
                  context.project.None? && !LacksMemory(services, input) && issues == [])
  {
    hide NewProjectDraft, Checked, CatalogMemoryMissing, LacksMemory;
    MissingMeansLacks(services, input);
  }
}
