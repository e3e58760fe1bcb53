/** The tools of the assistant, their exposure to a model, the parsing of untrusted arguments and the
    staging of proposals: rust/src/assistant/tools.rs and the context of rust/src/assistant/context.rs.

    The registry, the serde decoding of argument text and the services a call reaches are parameters:
    every statement holds for all of them. */
module Tools {
  import opened Wrappers
  import opened Json
  import opened Projects
  import opened Text

  const MAX_EXTRACTION_NOTES: nat := 100
  const MAX_EXTRACTION_NOTE_CHARS: nat := 500
  const MAX_QUESTION_CHARS: nat := 1_000
  const MAX_CONTROL_ID_CHARS: nat := 64

  // ---- host context ----

  datatype TurnPhase = ReadPlan | Propose | Execute

  datatype SelectedProject = SelectedProject(id: nat, etag: nat)

  datatype TurnContext = TurnContext(
    ownerId: string,
    phase: TurnPhase,
    project: Option<SelectedProject>,
    classifiedProjectType: Option<ProjectType>,
    classificationModelRequests: nat,
    confirmedActions: set<string>)

  // ---- the registry ----

  datatype Tool =
    | GetAgentCapabilities
    | GetApplicationHelp
    | GetCurrentProject
    | ValidateProjectPatch
    | CalculateProjectDraft
    | StageProjectPatch
    | StageNewProjectDraft

  function ToolName(tool: Tool): string {
    match tool
    case GetAgentCapabilities => "get_agent_capabilities"
    case GetApplicationHelp => "get_application_help"
    case GetCurrentProject => "get_current_project"
    case ValidateProjectPatch => "validate_project_patch"
    case CalculateProjectDraft => "calculate_project_draft"
    case StageProjectPatch => "stage_project_patch"
    case StageNewProjectDraft => "stage_new_project_draft"
  }

  datatype ToolRisk = Read | Draft | Persist | Destructive {
    predicate IsMutating() { Persist? || Destructive? }
    predicate RequiresConfirmation() { IsMutating() }
  }

  datatype ProjectRequirement = Any | Selected | Unselected

  datatype ToolDefinition = ToolDefinition(tool: Tool, phase: TurnPhase, risk: ToolRisk,
    projectRequirement: ProjectRequirement) {
    function Name(): string { ToolName(tool) }

    predicate PhaseAllows(context: TurnContext) {
      phase == context.phase || (phase == ReadPlan && risk == Read)
    }

    predicate ProjectAllows(context: TurnContext) {
      && (projectRequirement == Selected ==> context.project.Some?)
      && (projectRequirement == Unselected ==> context.project.None?)
    }

    predicate IsAvailable(context: TurnContext) {
      PhaseAllows(context) && ProjectAllows(context)
    }
  }

  const TOOLS: seq<ToolDefinition> := [
    ToolDefinition(GetAgentCapabilities, ReadPlan, Read, Any),
    ToolDefinition(GetApplicationHelp, ReadPlan, Read, Any),
    ToolDefinition(GetCurrentProject, ReadPlan, Read, Selected),
    ToolDefinition(ValidateProjectPatch, ReadPlan, Read, Selected),
    ToolDefinition(CalculateProjectDraft, ReadPlan, Read, Selected),
    ToolDefinition(StageProjectPatch, Propose, Draft, Selected),
    ToolDefinition(StageNewProjectDraft, Propose, Draft, Unselected)]

  function FindIn(tools: seq<ToolDefinition>, name: string): (r: Option<ToolDefinition>)
    ensures r.Some? ==> r.value in tools && r.value.Name() == name
    ensures r.None? ==> forall d | d in tools :: d.Name() != name
  {
    if tools == [] then None
    else if tools[0].Name() == name then Some(tools[0])
    else FindIn(tools[1..], name)
  }

  function Find(toolbox: Toolbox, name: string): Option<ToolDefinition> {
    FindIn(toolbox.registry, name)
  }

  /** The argument schema shown to a model: the reviewed one, or the draft schema narrowed to the
      classified project type. */
  datatype Parameters = Reviewed(tool: Tool) | Scoped(projectType: ProjectType)

  datatype ToolSchema = ToolSchema(name: string, parameters: Parameters)

  function Schema(d: ToolDefinition, context: TurnContext): ToolSchema {
    ToolSchema(d.Name(),
      if d.tool == StageNewProjectDraft && context.classifiedProjectType.Some?
        then Scoped(context.classifiedProjectType.value)
      else Reviewed(d.tool))
  }

  function SchemasOf(tools: seq<ToolDefinition>, context: TurnContext): (schemas: seq<ToolSchema>)
    ensures forall s | s in schemas :: exists d :: d in tools && d.IsAvailable(context) && s == Schema(d, context)
    ensures forall d | d in tools && d.IsAvailable(context) :: Schema(d, context) in schemas
  {
    if tools == [] then []
    else (if tools[0].IsAvailable(context) then [Schema(tools[0], context)] else []) + SchemasOf(tools[1..], context)
  }

  function SchemasForContext(toolbox: Toolbox, context: TurnContext): seq<ToolSchema> {
    SchemasOf(toolbox.registry, context)
  }

  lemma NamesAreDistinct(a: Tool, b: Tool)
    requires ToolName(a) == ToolName(b)
    ensures a == b
  {
    var x, y := ToolName(a), ToolName(b);
    assert |x| == |y| && (|x| > 9 ==> x[0] == y[0] && x[6] == y[6] && x[9] == y[9]);
  }

  predicate Exposed(toolbox: Toolbox, name: string, context: TurnContext) {
    exists s :: s in SchemasForContext(toolbox, context) && s.name == name
  }

  /** The tool that this name finds may be used in this context. */
  predicate Available(toolbox: Toolbox, name: string, context: TurnContext) {
    Find(toolbox, name).Some? && Find(toolbox, name).value.IsAvailable(context)
  }

  /** What may be used is shown. */
  lemma AvailableIsExposed(toolbox: Toolbox, name: string, context: TurnContext)
    ensures Available(toolbox, name, context) ==> Exposed(toolbox, name, context)
  {
    var found := Find(toolbox, name);
    if found.Some? && found.value.IsAvailable(context) {
      var s := Schema(found.value, context);
      assert s in SchemasForContext(toolbox, context) && s.name == name;
    }
  }

  predicate RegisteredOnce(registry: seq<ToolDefinition>) {
    forall d, e | d in registry && e in registry && d.tool == e.tool :: d == e
  }

  /** And in a registry without repetitions only what may be used is shown: a name is among the exposed
      schemas exactly when it finds a tool that is available in this context. */
  lemma ExposedMeansAvailable(toolbox: Toolbox, name: string, context: TurnContext)
    requires RegisteredOnce(toolbox.registry)
    ensures Exposed(toolbox, name, context) <==> Available(toolbox, name, context)
  {
    AvailableIsExposed(toolbox, name, context);
    if Exposed(toolbox, name, context) {
      var s :| s in SchemasForContext(toolbox, context) && s.name == name;
      var d :| d in toolbox.registry && d.IsAvailable(context) && s == Schema(d, context);
      NamesAreDistinct(d.tool, Find(toolbox, name).value.tool);
    }
  }

  /** The registered tools do not repeat, and none of them writes stored state. */
  lemma RegisteredTools()
    ensures RegisteredOnce(TOOLS) && forall d | d in TOOLS :: !d.risk.IsMutating()
  {
    forall d, e | d in TOOLS && e in TOOLS && d.tool == e.tool
      ensures d == e && !d.risk.IsMutating()
    {
      OneRegistration(d, e);
    }
  }

  lemma OneRegistration(d: ToolDefinition, e: ToolDefinition)
    requires d in TOOLS && e in TOOLS && d.tool == e.tool
    ensures d == e && !d.risk.IsMutating()
  {
  }

  // ---- typed arguments ----

  datatype Field =
    | WorkloadName | Quantity | SqlEdition | LicenseBasis | SqlDataGbPerInstance | SourceRamGbPerInstance
    | AnnualHoursPerInstance | MiPurchaseOption | VmPurchaseOption | InstanceType | Volumes | Deployment
    | CommercialTerm | StorageClass | SourceVcpu | LicensableCores | SourceMaxIops | HardwareCapexUsd
    | DepreciationYears | AveragePowerKwOverride

  const ALL_FIELDS: set<Field> := {
    WorkloadName, Quantity, SqlEdition, LicenseBasis, SqlDataGbPerInstance, SourceRamGbPerInstance,
    AnnualHoursPerInstance, MiPurchaseOption, VmPurchaseOption, InstanceType, Volumes, Deployment,
    CommercialTerm, StorageClass, SourceVcpu, LicensableCores, SourceMaxIops, HardwareCapexUsd,
    DepreciationYears, AveragePowerKwOverride}

  /** A proposed workload: its source type and the members that were given. */
  datatype NewResourceInput = NewResourceInput(sourceType: ProjectType, given: map<Field, Json>) {
    predicate FieldsMatchSourceType() {
      var ec2Fields := Volumes in given;
      var rdsFields := Deployment in given || CommercialTerm in given || StorageClass in given;
      var onPremFields := SourceVcpu in given || LicensableCores in given || HardwareCapexUsd in given
                          || DepreciationYears in given || AveragePowerKwOverride in given;
      match sourceType
      case Ec2 => !rdsFields && !onPremFields && VmPurchaseOption !in given
      case Ec2Vm => !rdsFields && !onPremFields && SqlEdition !in given && LicenseBasis !in given
                    && SqlDataGbPerInstance !in given && MiPurchaseOption !in given
      case Rds => !ec2Fields && !onPremFields && VmPurchaseOption !in given
      case OnPrem => InstanceType !in given && !ec2Fields && !rdsFields && VmPurchaseOption !in given
      case SqlPayg => false
    }
  }

  // The schema a classified draft is scoped to.

  const SOURCE_SPECIFIC_FIELDS: set<Field> := {
    InstanceType, Volumes, Deployment, CommercialTerm, StorageClass, SourceVcpu, LicensableCores,
    SourceMaxIops, HardwareCapexUsd, DepreciationYears, AveragePowerKwOverride, VmPurchaseOption}

  const SQL_ONLY_FIELDS: set<Field> := {SqlEdition, LicenseBasis, SqlDataGbPerInstance, MiPurchaseOption}

  function AllowedSpecificFields(t: ProjectType): set<Field> {
    match t
    case Ec2 => {InstanceType, Volumes}
    case Ec2Vm => {InstanceType, Volumes, VmPurchaseOption}
    case Rds => {InstanceType, Deployment, CommercialTerm, StorageClass, SourceMaxIops}
    case OnPrem => {SourceVcpu, LicensableCores, SourceMaxIops, HardwareCapexUsd, DepreciationYears,
      AveragePowerKwOverride}
    case SqlPayg => {}
  }

  /** The resource members that scoped_new_project_draft_schema leaves in the schema. */
  function ScopedFields(t: ProjectType): set<Field> {
    ALL_FIELDS - (if t == Ec2Vm then SQL_ONLY_FIELDS else {}) - (SOURCE_SPECIFIC_FIELDS - AllowedSpecificFields(t))
  }

  /** Schema and host agree but for one member: a workload passes the host's check exactly when its
      members are in the schema scoped to its type, except that source_max_iops always passes. */
  lemma AcceptedFieldsAreTheScopedOnes(r: NewResourceInput)
    ensures r.FieldsMatchSourceType() <==>
            r.sourceType != SqlPayg && r.given.Keys <= ScopedFields(r.sourceType) + {SourceMaxIops}
    ensures SourceMaxIops in ScopedFields(r.sourceType) <==> r.sourceType == Rds || r.sourceType == OnPrem
  {
    forall f: Field
      ensures f in ALL_FIELDS
    {
      match f {
        case WorkloadName | Quantity | SqlEdition | LicenseBasis | SqlDataGbPerInstance | SourceRamGbPerInstance =>
        case AnnualHoursPerInstance | MiPurchaseOption | VmPurchaseOption | InstanceType | Volumes | Deployment =>
        case CommercialTerm | StorageClass | SourceVcpu | LicensableCores | SourceMaxIops | HardwareCapexUsd =>
        case DepreciationYears | AveragePowerKwOverride =>
      }
    }
  }

  datatype HelpInput = HelpInput(question: string, controlId: Option<string>)
  datatype StagePatchInput = StagePatchInput(patch: ProjectPatch, omissions: seq<string>, uncertainties: seq<string>)
  datatype StageDraftInput = StageDraftInput(
    projectType: ProjectType,
    name: Option<string>,
    description: Option<string>,
    settings: map<string, Json>,
    resources: seq<NewResourceInput>,
    omissions: seq<string>,
    uncertainties: seq<string>)

  datatype ToolInput =
    | AgentCapabilities
    | ApplicationHelp(help: HelpInput)
    | CurrentProject
    | ValidatePatch(patch: ProjectPatch)
    | CalculateDraft(patch: ProjectPatch)
    | StagePatch(staged: StagePatchInput)
    | StageDraft(draft: StageDraftInput)

  datatype InvalidToolArguments =
    | MalformedJson | UnknownField | MissingField | TypeMismatch | UnknownVariant | InvalidScalarValue
    | InvalidShape | InputBounds | ExtractionNotes | ResourceFieldMismatch | UnregisteredTool

  /** The registered tools, in the source those of TOOLS, and the typed decoding of their argument text,
      with storage measurements already normalized. */
  datatype Toolbox = Toolbox(
    registry: seq<ToolDefinition>,
    empty: string -> Result<(), InvalidToolArguments>,
    help: string -> Result<HelpInput, InvalidToolArguments>,
    patch: string -> Result<ProjectPatch, InvalidToolArguments>,
    stagePatch: string -> Result<StagePatchInput, InvalidToolArguments>,
    stageDraft: string -> Result<StageDraftInput, InvalidToolArguments>)

  function NormalizedNotes(notes: seq<string>): Result<seq<string>, InvalidToolArguments> {
    if |notes| > MAX_EXTRACTION_NOTES || exists n | n in notes :: !IsAcceptableNote(n, MAX_EXTRACTION_NOTE_CHARS) then
      Err(ExtractionNotes)
    else Ok(seq(|notes|, i requires 0 <= i < |notes| => Trim(notes[i])))
  }

  predicate AreBoundedNotes(notes: seq<string>) {
    && |notes| <= MAX_EXTRACTION_NOTES
    && forall n | n in notes ::
         IsTrimmed(n) && 1 <= |n| <= MAX_EXTRACTION_NOTE_CHARS && forall c | c in n :: !IsControl(c)
  }

  lemma NormalizedNotesAreBounded(notes: seq<string>)
    requires NormalizedNotes(notes).Ok?
    ensures AreBoundedNotes(NormalizedNotes(notes).value) && |NormalizedNotes(notes).value| == |notes|
  {
    var r := NormalizedNotes(notes).value;
    forall n | n in r
      ensures IsTrimmed(n) && 1 <= |n| <= MAX_EXTRACTION_NOTE_CHARS && forall c | c in n :: !IsControl(c)
    {
      var i: nat :| i < |r| && r[i] == n;
      assert notes[i] in notes && IsAcceptableNote(notes[i], MAX_EXTRACTION_NOTE_CHARS);
    }
  }

  function ParseHelp(input: HelpInput): Result<ToolInput, InvalidToolArguments> {
    if !(1 <= |Trim(input.question)| <= MAX_QUESTION_CHARS) then Err(InputBounds)
    else if input.controlId.Some? && !(1 <= |input.controlId.value| <= MAX_CONTROL_ID_CHARS) then Err(InputBounds)
    else Ok(ApplicationHelp(input))
  }

  function ParseStagePatch(input: StagePatchInput): Result<ToolInput, InvalidToolArguments> {
    var omissions, uncertainties := NormalizedNotes(input.omissions), NormalizedNotes(input.uncertainties);
    if omissions.Err? then Err(omissions.error)
    else if uncertainties.Err? then Err(uncertainties.error)
    else Ok(StagePatch(StagePatchInput(input.patch, omissions.value, uncertainties.value)))
  }

  function ParseStageDraft(input: StageDraftInput): Result<ToolInput, InvalidToolArguments> {
    var omissions, uncertainties := NormalizedNotes(input.omissions), NormalizedNotes(input.uncertainties);
    if omissions.Err? then Err(omissions.error)
    else if uncertainties.Err? then Err(uncertainties.error)
    else if exists r | r in input.resources :: r.sourceType != input.projectType || !r.FieldsMatchSourceType() then
      Err(ResourceFieldMismatch)
    else Ok(StageDraft(input.(omissions := omissions.value, uncertainties := uncertainties.value)))
  }

  /** parse_input. */
  function ParseInput(toolbox: Toolbox, tool: Tool, argumentText: string): Result<ToolInput, InvalidToolArguments> {
    var text := if Trim(argumentText) == [] then "{}" else argumentText;
    match tool
    case GetAgentCapabilities =>
      var r := toolbox.empty(text);
      if r.Err? then Err(r.error) else Ok(AgentCapabilities)
    case GetApplicationHelp =>
      var r := toolbox.help(text);
      if r.Err? then Err(r.error) else ParseHelp(r.value)
    case GetCurrentProject =>
      var r := toolbox.empty(text);
      if r.Err? then Err(r.error) else Ok(CurrentProject)
    case ValidateProjectPatch =>
      var r := toolbox.patch(text);
      if r.Err? then Err(r.error) else Ok(ValidatePatch(r.value))
    case CalculateProjectDraft =>
      var r := toolbox.patch(text);
      if r.Err? then Err(r.error) else Ok(CalculateDraft(r.value))
    case StageProjectPatch =>
      var r := toolbox.stagePatch(text);
      if r.Err? then Err(r.error) else ParseStagePatch(r.value)
    case StageNewProjectDraft =>
      var r := toolbox.stageDraft(text);
      if r.Err? then Err(r.error) else ParseStageDraft(r.value)
  }

  function InputTool(input: ToolInput): Tool {
    match input
    case AgentCapabilities => GetAgentCapabilities
    case ApplicationHelp(_) => GetApplicationHelp
    case CurrentProject => GetCurrentProject
    case ValidatePatch(_) => ValidateProjectPatch
    case CalculateDraft(_) => CalculateProjectDraft
    case StagePatch(_) => StageProjectPatch
    case StageDraft(_) => StageNewProjectDraft
  }

  /** What dispatch can rely on once arguments were parsed, whatever text the model sent. */
  predicate Checked(input: ToolInput) {
    match input
    case StagePatch(p) => AreBoundedNotes(p.omissions) && AreBoundedNotes(p.uncertainties)
    case StageDraft(d) =>
      && AreBoundedNotes(d.omissions) && AreBoundedNotes(d.uncertainties)
      && (forall r | r in d.resources ::
        r.sourceType == d.projectType && r.sourceType != SqlPayg && r.FieldsMatchSourceType())
    case ApplicationHelp(h) => 1 <= |Trim(h.question)| <= MAX_QUESTION_CHARS
    case _ => true
  }

  lemma ParsedInputIsChecked(toolbox: Toolbox, tool: Tool, argumentText: string)
    requires ParseInput(toolbox, tool, argumentText).Ok?
    ensures var input := ParseInput(toolbox, tool, argumentText).value;
            InputTool(input) == tool && Checked(input)
  {
    hide ParseHelp, ParseStagePatch, ParseStageDraft, Checked, Trim;
    var text := if Trim(argumentText) == [] then "{}" else argumentText;
    match tool {
      case GetApplicationHelp => HelpIsChecked(toolbox.help(text).value);
      case StageProjectPatch => StagePatchIsChecked(toolbox.stagePatch(text).value);
      case StageNewProjectDraft => StageDraftIsChecked(toolbox.stageDraft(text).value);
      case GetAgentCapabilities => PlainIsChecked(AgentCapabilities);
      case GetCurrentProject => PlainIsChecked(CurrentProject);
      case ValidateProjectPatch => PlainIsChecked(ValidatePatch(toolbox.patch(text).value));
      case CalculateProjectDraft => PlainIsChecked(CalculateDraft(toolbox.patch(text).value));
    }
  }

  lemma PlainIsChecked(input: ToolInput)
    requires !input.StagePatch? && !input.StageDraft? && !input.ApplicationHelp?
    ensures Checked(input)
  {
  }

  lemma HelpIsChecked(input: HelpInput)
    requires ParseHelp(input).Ok?
    ensures InputTool(ParseHelp(input).value) == GetApplicationHelp && Checked(ParseHelp(input).value)
  {
    hide Trim;
  }

  lemma StagePatchIsChecked(input: StagePatchInput)
    requires ParseStagePatch(input).Ok?
    ensures InputTool(ParseStagePatch(input).value) == StageProjectPatch && Checked(ParseStagePatch(input).value)
  {
    hide NormalizedNotes, AreBoundedNotes;
    NormalizedNotesAreBounded(input.omissions);
    NormalizedNotesAreBounded(input.uncertainties);
  }

  lemma StageDraftIsChecked(input: StageDraftInput)
    requires ParseStageDraft(input).Ok?
    ensures InputTool(ParseStageDraft(input).value) == StageNewProjectDraft && Checked(ParseStageDraft(input).value)
  {
    hide NormalizedNotes, AreBoundedNotes;
    NormalizedNotesAreBounded(input.omissions);
    NormalizedNotesAreBounded(input.uncertainties);
  }

  // ---- what parsing keeps ----

  /** Each note, trimmed. */
  predicate AreTrimmed(notes: seq<string>, given: seq<string>) {
    |notes| == |given| && forall i | 0 <= i < |given| :: notes[i] == Trim(given[i])
  }

  /** Notes are accepted exactly when, once trimmed, each has 1 to 500 characters and no control character,
      and there are at most 100; and they are kept in order. */
  lemma NormalizedNotesExactly(notes: seq<string>)
    ensures var r := NormalizedNotes(notes);
            && (r.Ok? <==>
                  |notes| <= 100
                  && forall n | n in notes :: 1 <= |Trim(n)| <= 500 && forall c | c in Trim(n) :: !IsControl(c))
            && (r.Ok? ==> AreTrimmed(r.value, notes))
  {
    hide Trim, IsControl;
  }

  /** Arguments that stage a patch are refused only for their notes, and the patch is kept. */
  lemma ParsedPatchIsKept(input: StagePatchInput)
    ensures var r := ParseStagePatch(input);
            && (r.Ok? <==> NormalizedNotes(input.omissions).Ok? && NormalizedNotes(input.uncertainties).Ok?)
            && (r.Ok? ==>
                  && r.value.StagePatch? && r.value.staged.patch == input.patch
                  && AreTrimmed(r.value.staged.omissions, input.omissions)
                  && AreTrimmed(r.value.staged.uncertainties, input.uncertainties))
  {
    hide NormalizedNotes, AreTrimmed;
    NormalizedNotesExactly(input.omissions);
    NormalizedNotesExactly(input.uncertainties);
  }

  /** Arguments that stage a draft are refused only for their notes, or for a workload of another type or with
      members of another type; and apart from the notes they are kept as they are. */
  lemma ParsedDraftIsKept(input: StageDraftInput)
    ensures var r := ParseStageDraft(input);
            && (r.Ok? <==>
                  && NormalizedNotes(input.omissions).Ok? && NormalizedNotes(input.uncertainties).Ok?
                  && forall w | w in input.resources :: w.sourceType == input.projectType && w.FieldsMatchSourceType())
            && (r.Ok? ==>
                  && r.value.StageDraft?
                  && r.value.draft.(omissions := input.omissions, uncertainties := input.uncertainties) == input
                  && AreTrimmed(r.value.draft.omissions, input.omissions)
                  && AreTrimmed(r.value.draft.uncertainties, input.uncertainties))
  {
    hide NormalizedNotes, AreTrimmed;
    NormalizedNotesExactly(input.omissions);
    NormalizedNotesExactly(input.uncertainties);
  }

  // ---- what a phase admits ----

  /** Which of the registered tools may be used: reads in every phase, those of the project only when one is
      selected; staging only in the phase for proposals, of a patch with a selected project and of a draft
      without one. */
  lemma RegisteredToolsByPhase(d: ToolDefinition, context: TurnContext)
    requires d in TOOLS
    ensures d.IsAvailable(context) <==>
              match d.tool
              case GetAgentCapabilities | GetApplicationHelp => true
              case GetCurrentProject | ValidateProjectPatch | CalculateProjectDraft => context.project.Some?
              case StageProjectPatch => context.phase == Propose && context.project.Some?
              case StageNewProjectDraft => context.phase == Propose && context.project.None?
  {
  }

  /** Whatever is registered, a tool is used outside its own phase only to read, and only if it belongs to
      the first phase. */
  lemma OnlyReadsLeaveTheirPhase(d: ToolDefinition, context: TurnContext)
    requires d.IsAvailable(context)
    ensures d.phase == context.phase || (d.phase == ReadPlan && d.risk == Read)
    ensures d.projectRequirement == Selected ==> context.project.Some?
    ensures d.projectRequirement == Unselected ==> context.project.None?
  {
  }

  /** The schemas shown are those of the available tools under their own names; only that of a new draft is
      narrowed, to the type that the host classified. */
  lemma SchemasAreScoped(toolbox: Toolbox, context: TurnContext, s: ToolSchema)
    requires s in SchemasForContext(toolbox, context)
    ensures exists d | d in toolbox.registry :: d.IsAvailable(context) && s.name == ToolName(d.tool)
              && s.parameters == (if context.classifiedProjectType.Some? && d.tool == StageNewProjectDraft
                                  then Scoped(context.classifiedProjectType.value) else Reviewed(d.tool))
  {
    hide ToolName;
    var d :| d in toolbox.registry && d.IsAvailable(context) && s == Schema(d, context);
  }

  /** A question is refused only for its length or that of its control identifier. */
  lemma ParsedHelpIsKept(input: HelpInput)
    ensures var r := ParseHelp(input);
            && (r.Ok? <==>
                  1 <= |Trim(input.question)| <= 1_000
                  && (input.controlId.Some? ==> 1 <= |input.controlId.value| <= 64))
            && (r.Ok? ==> r.value == ApplicationHelp(input))
            && (r.Err? ==> r.error == InputBounds)
  {
    hide Trim;
  }

  function OrEmptyObject(argumentText: string): string {
    if Trim(argumentText) == [] then "{}" else argumentText
  }

  /** The arguments of the two reads of a patch are the decoded patch, and nothing more is required of it.
      Blank text stands for an empty object here and below. */
  lemma PatchIsDecoded(toolbox: Toolbox, tool: Tool, argumentText: string)
    requires tool == ValidateProjectPatch || tool == CalculateProjectDraft
    ensures var r, decoded := ParseInput(toolbox, tool, argumentText), toolbox.patch(OrEmptyObject(argumentText));
            && (r.Ok? <==> decoded.Ok?)
            && (r.Ok? ==> InputTool(r.value) == tool && r.value.patch == decoded.value)
            && (r.Err? ==> r.error == decoded.error)
  {
    hide Trim;
  }

  /** A staged patch is the decoded one. */
  lemma StagedPatchIsDecoded(toolbox: Toolbox, argumentText: string)
    ensures var r := ParseInput(toolbox, StageProjectPatch, argumentText);
            var decoded := toolbox.stagePatch(OrEmptyObject(argumentText));
            && (decoded.Err? ==> r == Err(decoded.error))
            && (r.Ok? ==> decoded.Ok? && r.value.StagePatch? && r.value.staged.patch == decoded.value.patch)
  {
    hide Trim, ParseStagePatch, NormalizedNotes, AreTrimmed;
    var decoded := toolbox.stagePatch(OrEmptyObject(argumentText));
    if decoded.Ok? {
      ParsedPatchIsKept(decoded.value);
    }
  }

  /** A staged draft is the decoded one, but for the trimming of its notes. */
  lemma StagedDraftIsDecoded(toolbox: Toolbox, argumentText: string)
    ensures var r := ParseInput(toolbox, StageNewProjectDraft, argumentText);
            var decoded := toolbox.stageDraft(OrEmptyObject(argumentText));
            && (decoded.Err? ==> r == Err(decoded.error))
            && (r.Ok? ==>
                  && decoded.Ok? && r.value.StageDraft?
                  && r.value.draft.(omissions := decoded.value.omissions, uncertainties := decoded.value.uncertainties)
                     == decoded.value)
  {
    hide Trim, ParseStageDraft, NormalizedNotes, AreTrimmed;
    var decoded := toolbox.stageDraft(OrEmptyObject(argumentText));
    if decoded.Ok? {
      ParsedDraftIsKept(decoded.value);
    }
  }
}
