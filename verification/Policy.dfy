/** All-or-nothing preflight of a proposed tool batch: rust/src/assistant/policy.rs. */
module Policy {
  import opened Wrappers
  import opened Text
  import opened Tools
  import opened Budget

  const MAX_CALL_ID_CHARS: nat := 128

  datatype ProposedToolCall = ProposedToolCall(id: string, name: string, argumentText: string)

  datatype ValidatedToolCall = ValidatedToolCall(id: string, definition: ToolDefinition, input: ToolInput)

  datatype PolicyError =
    | EmptyBatch | UngroundedResponse | BatchTooLarge | BudgetExhausted | InvalidCallId | UnknownTool
    | PhaseNotAllowed | ProjectContextNotAllowed | TooManyMutations
    | InvalidArguments(reason: InvalidToolArguments)
    | ClassificationMismatch | MissingConfirmation

  predicate IsAcceptableCallId(id: string) {
    1 <= |id| <= MAX_CALL_ID_CHARS && forall c | c in id :: IsAsciiAlphanumeric(c) || c == '-' || c == '_'
  }

  // ---- what an acceptable batch is ----

  /** The host agrees to this call on its own. */
  predicate Permitted(toolbox: Toolbox, context: TurnContext, call: ProposedToolCall) {
    && IsAcceptableCallId(call.id)
    && Available(toolbox, call.name, context)
    && Find(toolbox, call.name).Some?
    && var d := Find(toolbox, call.name).value;
    && (d.risk.IsMutating() ==> d.Name() in context.confirmedActions)
    && var input := ParseInput(toolbox, d.tool, call.argumentText);
    && input.Ok?
    && (input.value.StageDraft? && context.classifiedProjectType.Some? ==>
      input.value.draft.projectType == context.classifiedProjectType.value)
  }

  predicate Mutates(toolbox: Toolbox, call: ProposedToolCall) {
    Find(toolbox, call.name).Some? && Find(toolbox, call.name).value.risk.IsMutating()
  }

  predicate Taken(executed: set<string>, batch: seq<ProposedToolCall>, n: nat, id: string)
    requires n <= |batch|
  {
    id in executed || exists k :: 0 <= k < n && batch[k].id == id
  }

  predicate AnyMutates(toolbox: Toolbox, batch: seq<ProposedToolCall>, n: nat)
    requires n <= |batch|
  {
    exists k :: 0 <= k < n && Mutates(toolbox, batch[k])
  }

  /** Each of the first n calls is permitted, has an identifier that was not used before, and does
      not mutate after another that does. */
  predicate AllPermitted(toolbox: Toolbox, context: TurnContext, executed: set<string>, batch: seq<ProposedToolCall>,
                         n: nat)
    requires n <= |batch|
  {
    forall i {:trigger batch[i]} | 0 <= i < n ::
      && Permitted(toolbox, context, batch[i])
      && !Taken(executed, batch, i, batch[i].id)
      && !(Mutates(toolbox, batch[i]) && AnyMutates(toolbox, batch, i))
  }

  predicate Acceptable(toolbox: Toolbox, context: TurnContext, toolCalls: nat, executed: set<string>,
                       batch: seq<ProposedToolCall>) {
    && 1 <= |batch| <= MAX_TOOL_CALLS_PER_RESPONSE
    && toolCalls + |batch| <= MAX_TOOL_CALLS
    && AllPermitted(toolbox, context, executed, batch, |batch|)
  }

  /** Identifiers of an acceptable batch are all different and were not used before, and at most one
      of its calls mutates. */
  lemma AcceptableMeans(toolbox: Toolbox, context: TurnContext, toolCalls: nat, executed: set<string>,
                        batch: seq<ProposedToolCall>)
    requires Acceptable(toolbox, context, toolCalls, executed, batch)
    ensures forall i | 0 <= i < |batch| ::
            && batch[i].id !in executed && 1 <= |batch[i].id| <= 128 && Exposed(toolbox, batch[i].name, context)
            && forall c | c in batch[i].id :: 'a' <= c <= 'z' || 'A' <= c <= 'Z' || '0' <= c <= '9' || c in "-_"
    ensures forall i, j | 0 <= i < j < |batch| ::
            batch[i].id != batch[j].id && !(Mutates(toolbox, batch[i]) && Mutates(toolbox, batch[j]))
  {
    hide Mutates, Find, ParseInput, Exposed, Available;
    forall i | 0 <= i < |batch|
      ensures IsAcceptableCallId(batch[i].id) && Exposed(toolbox, batch[i].name, context)
    {
      AvailableIsExposed(toolbox, batch[i].name, context);
    }
    forall i, j | 0 <= i < j < |batch|
      ensures batch[i].id != batch[j].id && !(Mutates(toolbox, batch[i]) && Mutates(toolbox, batch[j]))
    {
      assert !Taken(executed, batch, j, batch[j].id);
    }
  }

  predicate HasGoodId(call: ProposedToolCall, taken: bool) {
    IsAcceptableCallId(call.id) && !taken
  }

  /** The tool may be used here, whatever its arguments are. */
  predicate MayRun(toolbox: Toolbox, context: TurnContext, call: ProposedToolCall, mutated: bool) {
    && Find(toolbox, call.name).Some? && Available(toolbox, call.name, context)
    && (Mutates(toolbox, call) ==> !mutated && call.name in context.confirmedActions)
  }

  /** Why a call is not accepted, given whether its identifier is taken and whether an earlier call
      of the batch mutates. */
  predicate Stops(toolbox: Toolbox, context: TurnContext, call: ProposedToolCall, taken: bool, mutated: bool,
                  e: PolicyError) {
    var found := Find(toolbox, call.name);
    match e
    case InvalidCallId => !HasGoodId(call, taken)
    case UnknownTool => HasGoodId(call, taken) && found.None?
    case PhaseNotAllowed => HasGoodId(call, taken) && found.Some? && !found.value.PhaseAllows(context)
    case ProjectContextNotAllowed =>
      HasGoodId(call, taken) && found.Some? && found.value.PhaseAllows(context) && !found.value.ProjectAllows(context)
    case TooManyMutations => HasGoodId(call, taken) && Available(toolbox, call.name, context) && Mutates(toolbox, call)
      && mutated
    case MissingConfirmation =>
      && HasGoodId(call, taken) && Available(toolbox, call.name, context)
      && Mutates(toolbox, call) && !mutated && call.name !in context.confirmedActions
    case InvalidArguments(reason) =>
      && HasGoodId(call, taken) && MayRun(toolbox, context, call, mutated)
      && ParseInput(toolbox, found.value.tool, call.argumentText) == Err(reason)
    case ClassificationMismatch =>
      && HasGoodId(call, taken) && MayRun(toolbox, context, call, mutated) && context.classifiedProjectType.Some?
      && var input := ParseInput(toolbox, found.value.tool, call.argumentText);
      input.Ok? && input.value.StageDraft? && input.value.draft.projectType != context.classifiedProjectType.value
    case _ => false
  }

  lemma StopsForOneReason(toolbox: Toolbox, context: TurnContext, call: ProposedToolCall, taken: bool, mutated: bool,
                          e: PolicyError, f: PolicyError)
    requires Stops(toolbox, context, call, taken, mutated, e) && Stops(toolbox, context, call, taken, mutated, f)
    ensures e == f
  {
    hide Find, ParseInput, IsAcceptableCallId;
  }

  /** The batch is permitted up to this call, which stops it. */
  predicate StopsAt(toolbox: Toolbox, context: TurnContext, executed: set<string>, batch: seq<ProposedToolCall>, i: nat,
                    e: PolicyError)
    requires i < |batch|
  {
    && AllPermitted(toolbox, context, executed, batch, i)
    && Stops(toolbox, context, batch[i], Taken(executed, batch, i, batch[i].id), AnyMutates(toolbox, batch, i), e)
  }

  /** Why a batch is rejected: its size, or the first call that is not permitted. */
  predicate Rejects(toolbox: Toolbox, context: TurnContext, toolCalls: nat, executed: set<string>,
                    batch: seq<ProposedToolCall>, e: PolicyError) {
    if batch == [] then e == EmptyBatch
    else if |batch| > MAX_TOOL_CALLS_PER_RESPONSE then e == BatchTooLarge
    else if toolCalls + |batch| > MAX_TOOL_CALLS then e == BudgetExhausted
    else exists i :: 0 <= i < |batch| && StopsAt(toolbox, context, executed, batch, i, e)
  }

  /** Nothing is permitted beyond a call that stops the batch. */
  lemma StopsEverythingAfter(toolbox: Toolbox, context: TurnContext, executed: set<string>,
                             batch: seq<ProposedToolCall>,
                             i: nat, e: PolicyError, n: nat)
    requires i < n <= |batch| && StopsAt(toolbox, context, executed, batch, i, e)
    ensures !AllPermitted(toolbox, context, executed, batch, n)
  {
    if Permitted(toolbox, context, batch[i]) {
      StopsPermitted(toolbox, context, batch[i], Taken(executed, batch, i, batch[i].id), AnyMutates(toolbox, batch, i),
        e);
    }
    hide Mutates, Permitted, Stops;
  }

  /** A rejected batch is not acceptable, and the reason is determined by the batch. */
  lemma RejectsForOneReason(toolbox: Toolbox, context: TurnContext, toolCalls: nat, executed: set<string>,
                            batch: seq<ProposedToolCall>, e: PolicyError)
    requires Rejects(toolbox, context, toolCalls, executed, batch, e)
    ensures !Acceptable(toolbox, context, toolCalls, executed, batch)
    ensures forall f | Rejects(toolbox, context, toolCalls, executed, batch, f) :: f == e
  {
    hide AllPermitted, Stops, Taken, AnyMutates;
    if i :| 0 <= i < |batch| && StopsAt(toolbox, context, executed, batch, i, e) {
      StopsEverythingAfter(toolbox, context, executed, batch, i, e, |batch|);
      forall f, j | 0 <= j < |batch| && StopsAt(toolbox, context, executed, batch, j, f)
        ensures f == e
      {
        if i < j {
          StopsEverythingAfter(toolbox, context, executed, batch, i, e, j);
        } else if j < i {
          StopsEverythingAfter(toolbox, context, executed, batch, j, f, i);
        } else {
          StopsForOneReason(toolbox, context, batch[i], Taken(executed, batch, i, batch[i].id),
            AnyMutates(toolbox, batch, i), e,
            f);
        }
      }
    }
  }

  lemma AcceptableIsNotRejected(toolbox: Toolbox, context: TurnContext, toolCalls: nat, executed: set<string>,
                                batch: seq<ProposedToolCall>)
    requires Acceptable(toolbox, context, toolCalls, executed, batch)
    ensures forall e :: !Rejects(toolbox, context, toolCalls, executed, batch, e)
  {
    hide *;
    forall e
      ensures !Rejects(toolbox, context, toolCalls, executed, batch, e)
    {
      if Rejects(toolbox, context, toolCalls, executed, batch, e) {
        RejectsForOneReason(toolbox, context, toolCalls, executed, batch, e);
      }
    }
  }

  function Validated(toolbox: Toolbox, context: TurnContext, call: ProposedToolCall): ValidatedToolCall
    requires Permitted(toolbox, context, call)
  {
    var d := Find(toolbox, call.name).value;
    ValidatedToolCall(call.id, d, ParseInput(toolbox, d.tool, call.argumentText).value)
  }

  predicate IsValidated(toolbox: Toolbox, context: TurnContext, batch: seq<ProposedToolCall>, n: nat,
                        accepted: seq<ValidatedToolCall>)
    requires n <= |batch|
  {
    && |accepted| == n
    && forall i | 0 <= i < n ::
      Permitted(toolbox, context, batch[i]) && accepted[i] == Validated(toolbox, context, batch[i])
  }

  // ---- preflight ----

  /** The checks of one call after those of its identifier. */
  method CheckCall(toolbox: Toolbox, context: TurnContext, call: ProposedToolCall, mutatingCalls: nat)
    returns (r: Result<(ToolInput, ToolDefinition), PolicyError>)
    requires IsAcceptableCallId(call.id)
    ensures r.Ok? <==> Permitted(toolbox, context, call) && !(Mutates(toolbox, call) && mutatingCalls >= 1)
    ensures r.Ok? ==> ValidatedToolCall(call.id, r.value.1, r.value.0) == Validated(toolbox, context, call)
    ensures r.Ok? ==> (Mutates(toolbox, call) <==> r.value.1.risk.IsMutating())
    ensures r.Err? ==> Stops(toolbox, context, call, false, mutatingCalls >= 1, r.error)
  {
    hide Find, ParseInput;
    var found := Find(toolbox, call.name);
    FoundHasName(toolbox, call.name);
    if found.None? {
      return Err(UnknownTool);
    }
    var definition := found.value;
    var isAuthoritativeRead := definition.phase == ReadPlan && definition.risk == Read;
    if definition.phase != context.phase && !isAuthoritativeRead {
      return Err(PhaseNotAllowed);
    }
    if !definition.IsAvailable(context) {
      return Err(ProjectContextNotAllowed);
    }
    if definition.risk.IsMutating() {
      if mutatingCalls + 1 > MAX_MUTATING_CALLS_PER_BATCH {
        return Err(TooManyMutations);
      }
      if definition.risk.RequiresConfirmation() && definition.Name() !in context.confirmedActions {
        return Err(MissingConfirmation);
      }
    }
    var input := ParseInput(toolbox, definition.tool, call.argumentText);
    if input.Err? {
      return Err(InvalidArguments(input.error));
    }
    if input.value.StageDraft? && context.classifiedProjectType.Some?
      && context.classifiedProjectType.value != input.value.draft.projectType {
      return Err(ClassificationMismatch);
    }
    return Ok((input.value, definition));
  }

  lemma FoundHasName(toolbox: Toolbox, name: string)
    ensures Find(toolbox, name).Some? ==>
            Find(toolbox, name).value.Name() == name && Find(toolbox, name).value in toolbox.registry
  {
  }

  /** The loop of Preflight after i calls. */
  ghost predicate Passed(toolbox: Toolbox, context: TurnContext, executed: set<string>, batch: seq<ProposedToolCall>,
                         i: nat,
                         ids: set<string>, mutatingCalls: nat, validated: seq<ValidatedToolCall>)
    requires i <= |batch|
  {
    && AllPermitted(toolbox, context, executed, batch, i)
    && IsValidated(toolbox, context, batch, i, validated)
    && (forall id :: id in ids <==> exists k :: 0 <= k < i && batch[k].id == id)
    && (mutatingCalls >= 1 <==> AnyMutates(toolbox, batch, i))
  }

  lemma PassedOneMore(toolbox: Toolbox, context: TurnContext, executed: set<string>, batch: seq<ProposedToolCall>,
                      i: nat,
                      ids: set<string>, mutatingCalls: nat, validated: seq<ValidatedToolCall>, next: ValidatedToolCall)
    requires i < |batch| && Passed(toolbox, context, executed, batch, i, ids, mutatingCalls, validated)
    requires batch[i].id !in executed && batch[i].id !in ids && !(Mutates(toolbox, batch[i]) && mutatingCalls >= 1)
    requires Permitted(toolbox, context, batch[i]) && next == Validated(toolbox, context, batch[i])
    ensures Passed(toolbox, context, executed, batch, i + 1, ids + {batch[i].id},
                   if Mutates(toolbox, batch[i]) then mutatingCalls + 1 else mutatingCalls, validated + [next])
  {
    hide Mutates, Permitted, Validated;
    forall id
      ensures id in ids + {batch[i].id} <==> exists k :: 0 <= k < i + 1 && batch[k].id == id
    {
      if id in ids {
        var k :| 0 <= k < i && batch[k].id == id;
      }
    }
    assert AnyMutates(toolbox, batch, i + 1) <==> AnyMutates(toolbox, batch, i) || Mutates(toolbox, batch[i]);
  }

  lemma PassedStops(toolbox: Toolbox, context: TurnContext, executed: set<string>, batch: seq<ProposedToolCall>, i: nat,
                    ids: set<string>, mutatingCalls: nat, validated: seq<ValidatedToolCall>, e: PolicyError)
    requires i < |batch| && Passed(toolbox, context, executed, batch, i, ids, mutatingCalls, validated)
    requires Stops(toolbox, context, batch[i], batch[i].id in executed || batch[i].id in ids, mutatingCalls >= 1, e)
    ensures StopsAt(toolbox, context, executed, batch, i, e)
    ensures !AllPermitted(toolbox, context, executed, batch, |batch|)
  {
    hide Mutates, Permitted, Stops;
    StopsEverythingAfter(toolbox, context, executed, batch, i, e, |batch|);
  }

  lemma StopsPermitted(toolbox: Toolbox, context: TurnContext, call: ProposedToolCall, taken: bool, mutated: bool,
                       e: PolicyError)
    requires Permitted(toolbox, context, call) && Stops(toolbox, context, call, taken, mutated, e)
    ensures taken || (Mutates(toolbox, call) && mutated)
  {
    FoundHasName(toolbox, call.name);
    hide Find, ParseInput;
  }

  /** Nothing is accepted unless everything is: the batch comes back whole exactly when it is
      acceptable, and otherwise with the reason of its first call that is not. */
  method Preflight(toolbox: Toolbox, batch: seq<ProposedToolCall>, context: TurnContext, budget: TurnBudget,
                   executed: set<string>)
    returns (r: Result<seq<ValidatedToolCall>, PolicyError>)
    requires budget.Valid()
    ensures r.Ok? <==> Acceptable(toolbox, context, budget.toolCalls, executed, batch)
    ensures r.Ok? ==> IsValidated(toolbox, context, batch, |batch|, r.value)
    ensures r.Err? ==> Rejects(toolbox, context, budget.toolCalls, executed, batch, r.error)
  {
    hide *;
    AcceptableIs(toolbox, context, budget, executed, batch);
    if batch == [] {
      return Err(EmptyBatch);
    }
    if |batch| > MAX_TOOL_CALLS_PER_RESPONSE {
      return Err(BatchTooLarge);
    }
    if |batch| > budget.RemainingToolCalls() {
      return Err(BudgetExhausted);
    }
    var batchCallIds: set<string>, mutatingCalls, validated := {}, 0, [];
    NonePassed(toolbox, context, executed, batch);
    for i := 0 to |batch|
      invariant Passed(toolbox, context, executed, batch, i, batchCallIds, mutatingCalls, validated)
    {
      var call := batch[i];
      if !IsAcceptableCallId(call.id) || call.id in executed || call.id in batchCallIds {
        WrongIdStops(toolbox, context, call, call.id in executed || call.id in batchCallIds, mutatingCalls >= 1);
        PassedStops(toolbox, context, executed, batch, i, batchCallIds, mutatingCalls, validated, InvalidCallId);
        return Err(InvalidCallId);
      }
      var checked := CheckCall(toolbox, context, call, mutatingCalls);
      if checked.Err? {
        PassedStops(toolbox, context, executed, batch, i, batchCallIds, mutatingCalls, validated, checked.error);
        return Err(checked.error);
      }
      var next := ValidatedToolCall(call.id, checked.value.1, checked.value.0);
      PassedOneMore(toolbox, context, executed, batch, i, batchCallIds, mutatingCalls, validated, next);
      batchCallIds := batchCallIds + {call.id};
      if checked.value.1.risk.IsMutating() {
        mutatingCalls := mutatingCalls + 1;
      }
      validated := validated + [next];
    }
    PassedAll(toolbox, context, executed, batch, batchCallIds, mutatingCalls, validated);
    return Ok(validated);
  }

  lemma AcceptableIs(toolbox: Toolbox, context: TurnContext, budget: TurnBudget, executed: set<string>,
                     batch: seq<ProposedToolCall>)
    requires budget.Valid()
    ensures Acceptable(toolbox, context, budget.toolCalls, executed, batch) <==>
              && 1 <= |batch| <= MAX_TOOL_CALLS_PER_RESPONSE
              && budget.toolCalls + |batch| <= MAX_TOOL_CALLS
              && AllPermitted(toolbox, context, executed, batch, |batch|)
    ensures |batch| <= budget.RemainingToolCalls() <==> budget.toolCalls + |batch| <= MAX_TOOL_CALLS
    ensures batch == [] ==> Rejects(toolbox, context, budget.toolCalls, executed, batch, EmptyBatch)
    ensures |batch| > MAX_TOOL_CALLS_PER_RESPONSE ==>
            Rejects(toolbox, context, budget.toolCalls, executed, batch, BatchTooLarge)
    ensures 1 <= |batch| <= MAX_TOOL_CALLS_PER_RESPONSE && budget.toolCalls + |batch| > MAX_TOOL_CALLS ==>
              Rejects(toolbox, context, budget.toolCalls, executed, batch, BudgetExhausted)
    ensures 1 <= |batch| <= MAX_TOOL_CALLS_PER_RESPONSE && budget.toolCalls + |batch| <= MAX_TOOL_CALLS ==>
              forall i, e | 0 <= i < |batch| && StopsAt(toolbox, context, executed, batch, i, e) ::
                Rejects(toolbox, context, budget.toolCalls, executed, batch, e)
  {
    hide AllPermitted, StopsAt;
  }

  lemma NonePassed(toolbox: Toolbox, context: TurnContext, executed: set<string>, batch: seq<ProposedToolCall>)
    ensures Passed(toolbox, context, executed, batch, 0, {}, 0, [])
  {
  }

  lemma WrongIdStops(toolbox: Toolbox, context: TurnContext, call: ProposedToolCall, taken: bool, mutated: bool)
    requires !IsAcceptableCallId(call.id) || taken
    ensures Stops(toolbox, context, call, taken, mutated, InvalidCallId)
  {
  }

  lemma PassedAll(toolbox: Toolbox, context: TurnContext, executed: set<string>, batch: seq<ProposedToolCall>,
                  ids: set<string>, mutatingCalls: nat, validated: seq<ValidatedToolCall>)
    requires Passed(toolbox, context, executed, batch, |batch|, ids, mutatingCalls, validated)
    ensures AllPermitted(toolbox, context, executed, batch, |batch|)
            && IsValidated(toolbox, context, batch, |batch|, validated)
  {
  }
}
