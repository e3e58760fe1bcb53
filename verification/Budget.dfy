/** Host-enforced budgets of one assistant turn: rust/src/assistant/budget.rs. */
module Budget {
  import opened Wrappers

  const MAX_MODEL_REQUESTS: nat := 8
  const MAX_TOOL_CALLS: nat := 12
  const MAX_TOOL_CALLS_PER_RESPONSE: nat := 4
  const MAX_MUTATING_CALLS_PER_BATCH: nat := 1
  const MAX_PROMPT_CONTEXT_CHARS: nat := 128_000
  const MAX_TOOL_RESULT_CHARS: nat := 8_000
  const U32_MAX: nat := 0xFFFF_FFFF

  datatype BudgetError = ModelRequests | ToolCalls | PromptContext

  class TurnBudget {
    var modelRequests: nat
    var toolCalls: nat

    ghost predicate Valid() reads this {
      modelRequests <= MAX_MODEL_REQUESTS && toolCalls <= MAX_TOOL_CALLS
    }

    constructor ()
      ensures Valid() && modelRequests == 0 && toolCalls == 0
    {
      modelRequests, toolCalls := 0, 0;
    }

    method ChargeModelRequest() returns (r: Result<(), BudgetError>)
      requires Valid()
      modifies this
      ensures Valid() && toolCalls == old(toolCalls)
      ensures r == if old(modelRequests) < MAX_MODEL_REQUESTS then Ok(()) else Err(ModelRequests)
      ensures modelRequests == old(modelRequests) + if r.Ok? then 1 else 0
    {
      if modelRequests >= MAX_MODEL_REQUESTS {
        return Err(ModelRequests);
      }
      modelRequests := modelRequests + 1;
      return Ok(());
    }

    /** A batch is charged as a whole or not at all; neither the conversion to 32 bits nor the
        addition can be made to overflow into a smaller charge. */
    method ChargeToolCalls(count: nat) returns (r: Result<(), BudgetError>)
      requires Valid()
      modifies this
      ensures Valid() && modelRequests == old(modelRequests)
      ensures r == if old(toolCalls) + count <= MAX_TOOL_CALLS then Ok(()) else Err(ToolCalls)
      ensures toolCalls == old(toolCalls) + if r.Ok? then count else 0
    {
      if count > U32_MAX {
        return Err(ToolCalls);
      }
      if toolCalls + count > U32_MAX {
        return Err(ToolCalls);
      }
      var used := toolCalls + count;
      if used > MAX_TOOL_CALLS {
        return Err(ToolCalls);
      }
      toolCalls := used;
      return Ok(());
    }

    function RemainingToolCalls(): nat
      reads this
    {
      if toolCalls <= MAX_TOOL_CALLS then MAX_TOOL_CALLS - toolCalls else 0
    }
  }
}
