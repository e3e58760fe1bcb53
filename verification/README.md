# SQL TCO calculator: verified model

A Dafny model of the parts of the SQL TCO calculator in which several steps, several handlers or
several functions have to agree, with proofs that they do. `dafny verify dfyconfig.toml` checks it.

| part | modules |
|---|---|
| Share creation racing project deletion over two stores | `ShareRace`, `ShareReplies` |
| Per-key token bucket with a bounded, evicting table | `RateLimit`, `RateLimitLimits` |
| The bounded assistant turn: budget, tools, preflight, transcript, loop, image route | `Text`, `Budget`, `Tools`, `Staging`, `Policy`, `Transcript`, `Turn`, `TurnResults`, `Classification`, `AssistantApi` |
| Structural diff of a staged patch, and the pointer text it prints | `Json`, `Pointers`, `Projects`, `Diff`, `DiffPlaces` |
| Confirmed actions under optimistic concurrency | `ConfirmedAction`, `ConfirmedReplies` |
| Scan of the static page for inline scripts | `Scanner` |
| Calculator manifest, target selection, EBS cost, licence-rate fallback | `Decimals`, `Manifest`, `ManifestGuards`, `TargetSelection`, `EbsCost`, `LicenceRates` |

How the source is represented:

- Concurrent handlers are a step relation: every repository call is one atomic step that may fail,
  any number of handlers interleave in any order, and every statement is about all action sequences.
  Revoking all shares of a project is one query followed by one deletion per share, which covers both
  the document-store and the in-memory repository. A step that fails had no effect.
- Model replies, the clock, the registry of tools, argument decoding and the services behind the tools
  are one `Oracle`: any registrations of the tools, and arbitrary functions of "how often it was asked",
  so a statement about a turn holds for every behaviour of theirs. `Tools.TOOLS` is the registry of the
  source. `Turn.RunTurn` is the loop of the source; besides its result it returns the `Trace` of
  requests, rounds and dispatched calls, and its contract says what that trace can be.
- Floating-point amounts are reals. The decimals of the manifest have a 96-bit mantissa and at most 28
  decimals, and drop as few decimals as possible, rounding to nearest with ties to even; rust_decimal,
  which does this for the program, is not part of this model. Digests are injective: a proposal identifier is the
  tuple it is computed from. Character counts are sequence lengths.
- What an operation computes is a function; the loops and in-place updates of the source are methods
  proved equal to it, and the properties are lemmas about the function.

Places where the code does not do all that one might read into it, each stated as a theorem:

- `rate_limit.rs` reads the clock before it takes the lock, so readings can reach the table out of
  order, and each result about the bucket has an exact limit. The usual rate bound, capacity plus window
  length times rate, holds exactly for readings that climb by no more than their spread
  (`RateLimitLimits.UsualBoundHoldsExactly`); with the total climb in place of the length it always holds
  (`RateLimit.WindowBound`). The bounded table decides like an unbounded one exactly as long as no
  reading lags by more than one period (`RateLimitLimits.RefinementHoldsExactly`); beyond that an evicted
  key gets a full bucket too early (`RateLimitLimits.OvertakenBreaksRefinement`). The wait
  that a key's own bucket advertises is exact exactly as long as no other key is read later than the
  stale limit (`RateLimitLimits.WaitIsExactExactly`).
- A refusal for a full table always advertises two periods, and that is seldom the time to wait. Without
  other traffic the key is allowed as soon as some tracked key is stale
  (`RateLimitLimits.AfterTableFull`), so the wait is exact only when the least recently used key was used
  before the refusal, but by no more than a second (`RateLimitLimits.TableFullWaitExactly`). It may be too
  short (`RateLimitLimits.TableFullWaitIsTooShort`) and too long by nearly all of it
  (`RateLimitLimits.TableFullWaitIsTooLong`), and other keys can keep the table full for any time
  (`RateLimitLimits.OthersKeepTableFull`).
- Monthly hours are checked by multiplying them by twelve again, but the product is rounded too. From
  about 7.92 annual hours on, inexact monthly hours pass unless the twelfth is a tie
  (`Manifest.MonthlyHoursExactly`): 100 annual hours are accepted as 8.333333333333333333333333333 a
  month (`Manifest.HundredHoursAreAccepted`), and of whole hours all from eight on are accepted although
  only multiples of three are exact (`Decimals.WholeHours`).
- A confirmed action whose write took effect, and whose re-read succeeds, is answered with 412 exactly
  when another write took effect before the re-read (`ConfirmedAction.ConfirmAnswers`,
  `ConfirmedAction.CommittedActionMayAnswer412`).
- The host's field check accepts exactly the members of the schema shown to the model, plus
  `source_max_iops` for every type (`Tools.AcceptedFieldsAreTheScopedOnes`).

## Model

| member | source | states |
|---|---|---|
| `ShareReplies.NoShareOutlivesItsProject` | rust/src/api/projects.rs:177-205 | In every interleaving of any number of creations and deletions, once all requests have finished no share survives for a project that no longer exists, unless a cleanup revocation did fail: that of the share by its own creation, or the second one of the deletion |
| `ShareRace.InvHolds` | rust/src/api/project_shares.rs:33-65 | In every reachable state each share of a deleted project is covered by a deleter that still owes or failed its second revocation, or a creator that still owes its re-read, its compensation, or failed it |
| `ShareRace.CreatorStepCovers` | rust/src/api/project_shares.rs:45-60 | No step of a creator uncovers a share |
| `ShareRace.DeleterStepCovers` | rust/src/persistence/cosmos.rs:389-419 | No step of a deleter uncovers a share, including the pages and one-by-one deletions of its second revocation, where a page may add shares, may leave out removed ones, and may fail |
| `ShareRace.AfterDeletionOnlyCreatorsOwe` | rust/src/api/projects.rs:199-205 | Once a deletion was answered with success, a share left for that project is the unfinished or failed business of its creator |
| `ShareRace.HandedOutSharesPersist` | rust/src/api/project_shares.rs:61-65 | A share that was handed out is still stored as long as nobody asked to delete its project or revoked that share: compensation never hits a good share |
| `ShareRace.FailedCleanupLeavesAShare` | rust/src/api/projects.rs:199-203 | The exception is needed: a concrete run in which the second revocation fails and a share survives |
| `ShareReplies.DeletionAnswersExactly` | rust/src/api/projects.rs:177-205 | In every run a deletion has been answered with a reply if and only if, at some step of it, the very call that the reply names came out that way: a query, page or removal of the revocation it names failed, the purge or the deletion failed or found no project, or all was done |
| `ShareReplies.DeletionSucceedsWithItsCalls` | rust/src/api/projects.rs:177-205 | A finished deletion was answered with success if and only if none of its own calls failed |
| `ShareReplies.EarlyFailureKeepsProject` | rust/src/api/projects.rs:184-198 | A deletion that failed in its first revocation, in the purge or for an unavailable store leaves the project stored, as long as nobody else asked to delete it |
| `ShareReplies.LateAnswerMeansDeleted` | rust/src/api/projects.rs:194-205 | A deletion that succeeded or failed in its second revocation has deleted the project |
| `ShareReplies.UndisturbedDeletionSucceeds` | rust/src/api/projects.rs:177-205 | From every state there is a run of a deletion alone, without an unavailable call, that is answered with success and leaves neither the stored project nor any of its shares, and nothing else changed |
| `ShareReplies.CreationAnswersExactly` | rust/src/api/project_shares.rs:33-65 | In every run a creation has been answered with a reply if and only if, at some step of it, the very call that the reply names came out that way |
| `ShareReplies.CompensationHasItsCause` | rust/src/api/project_shares.rs:53-60 | A creation sets out to revoke its share exactly for the cause that its re-read had |
| `ShareReplies.UndisturbedCreationSucceeds` | rust/src/api/project_shares.rs:41-65 | From every state a creation alone, for a stored project and without an unavailable call, stores its share and hands it out, and nothing else changes |
| `RateLimit.TokenBucket.Check` | rust/src/rate_limit.rs:122-147 | The in-place check answers and updates the table as the specification functions `Decide` and `Next` say |
| `RateLimit.TokenBucket.constructor` | rust/src/rate_limit.rs:113-120 | A new bucket is empty, refills its capacity over the period and drops entries idle for twice the period |
| `RateLimit.RunsKeepInvariant` | rust/src/rate_limit.rs:122-147 | On every run the table never exceeds the cap and every level stays between zero and the capacity |
| `RateLimit.WindowBound` | rust/src/rate_limit.rs:122-147 | For every run, key and window, whatever the clock does, at most capacity plus rate times the forward movement of the readings is allowed, across evictions and re-insertions |
| `RateLimit.WindowBoundOnAscendingClock` | rust/src/rate_limit.rs:122-147 | When the readings in the window do not descend, at most capacity plus window length times rate requests are allowed |
| `RateLimit.DescendingClockBreaksTheWindowBound` | rust/src/rate_limit.rs:124-125 | With two alternating readings the usual bound fails by any amount, and the bound of `WindowBound` is met |
| `RateLimit.BoundedRefinesUnbounded` | rust/src/rate_limit.rs:126-135 | On every run in which no reading lags behind the newest earlier one by more than one period, all decisions but the table-full refusals are those of an unbounded table that never evicts |
| `RateLimit.SimulationHolds` | rust/src/rate_limit.rs:126-131 | The invariant behind it: what the bounded table dropped was stale for the newest reading, so it is full for any reading one period older |
| `RateLimit.TableFullExactly` | rust/src/rate_limit.rs:126-131 | A check is refused for a full table exactly when the key is untracked and the cap is reached by keys that are not stale |
| `RateLimit.RetryAfterIsExact` | rust/src/rate_limit.rs:137-146 | After a refusal by its own bucket, with any requests of other keys in between that are read within the stale limit, in any order, the same key is allowed after the advertised seconds and refused after any smaller positive whole number of them |
| `RateLimit.OthersLeaveEntryAlone` | rust/src/rate_limit.rs:126-131 | Other keys cannot change or evict an entry, in whatever order they are read, as long as none is read later than the stale limit after it |
| `RateLimit.EvictionKeepsAvailable` | rust/src/rate_limit.rs:127 | Eviction changes nothing that any key could spend |
| `RateLimitLimits.UsualBoundHoldsExactly` | rust/src/rate_limit.rs:122-147 | For given readings the bound capacity plus window length times rate holds for every bucket, run, key and window on them if and only if they climb by no more than their spread |
| `RateLimitLimits.RefinementHoldsExactly` | rust/src/rate_limit.rs:126-135 | For every bucket and lag, the refinement of the unbounded table holds on all runs of that lag if and only if the lag is at most one period |
| `RateLimitLimits.OvertakenBreaksRefinement` | rust/src/rate_limit.rs:126-135 | The failing run: a key spends everything, others fill the table, a late new key evicts them, and the first key asks again with an older reading and gets a full bucket |
| `RateLimitLimits.WaitIsExactExactly` | rust/src/rate_limit.rs:126-146 | For every bucket and deadline, the wait advertised to a key refused by its own bucket is exact for all traffic of other keys up to the deadline if and only if the deadline is within the stale limit |
| `RateLimitLimits.AfterTableFull` | rust/src/rate_limit.rs:126-131 | After a refusal for a full table and no other traffic, the key is allowed at a later reading if and only if some tracked key is stale by then, whatever wait was advertised |
| `RateLimitLimits.TableFullWaitExactly` | rust/src/rate_limit.rs:126-131 | The two periods advertised for a full table are the least whole number of seconds to wait if and only if the least recently used key was used before the refusal, but no more than a second before |
| `RateLimitLimits.TableFullWaitIsTooShort` | rust/src/rate_limit.rs:126-131 | A run from the empty table after which a new key is refused again after exactly the advertised wait, though nobody else asked |
| `RateLimitLimits.TableFullWaitIsTooLong` | rust/src/rate_limit.rs:126-131 | A run from the empty table after which a new key is told to wait two periods and is allowed after one second |
| `RateLimitLimits.AfterTableFullWithOthers` | rust/src/rate_limit.rs:126-131 | With any traffic of other keys in between, the key is allowed if and only if their requests left room or some tracked key is stale |
| `RateLimitLimits.OthersKeepTableFull` | rust/src/rate_limit.rs:126-131 | After every refusal for a full table, requests of other keys at a later reading can have the key refused at that reading as well, however late it is |
| `Budget.TurnBudget.ChargeModelRequest` | rust/src/assistant/budget.rs:53-59 | A request is charged exactly while fewer than eight were |
| `Budget.TurnBudget.ChargeToolCalls` | rust/src/assistant/budget.rs:62-73 | A batch is charged whole or not at all, for every count, without overflow |
| `Tools.ExposedMeansAvailable` | rust/src/assistant/tools.rs:515-535 | In a registry without repetitions, as the registered tools are, a name is among the schemas shown to the model exactly when it finds a registered tool that is available in the context |
| `Tools.RegisteredTools` | rust/src/assistant/tools.rs:456-513 | No tool is registered twice and none of the registered ones writes stored state |
| `Tools.RegisteredToolsByPhase` | rust/src/assistant/tools.rs:118-127 | Of the registered tools, reads are available in every phase, those of the project only when one is selected, a patch is staged only in the proposal phase with a selected project and a draft only in that phase without one |
| `Tools.SchemasAreScoped` | rust/src/assistant/tools.rs:520-535 | Schemas are shown under the names of their tools, and only that of a new draft is narrowed, to the type the host classified |
| `Tools.AcceptedFieldsAreTheScopedOnes` | rust/src/assistant/tools.rs:746-778 | A workload passes the field check exactly when its type is not SQL PAYG and its members are those of the schema scoped to its type, or source_max_iops |
| `Tools.ParsedInputIsChecked` | rust/src/assistant/tools.rs:866-924 | Whatever text the model sent, parsed arguments belong to the tool, notes are trimmed and bounded, and a draft's workloads all have its type and none is SQL PAYG |
| `Tools.NormalizedNotesAreBounded` | rust/src/assistant/tools.rs:983-1000 | Accepted notes are trimmed, non-empty, at most 500 characters, free of control characters and at most 100 |
| `Tools.NormalizedNotesExactly` | rust/src/assistant/tools.rs:983-1000 | Notes are accepted if and only if there are at most 100 and each, once trimmed, has 1 to 500 characters and no control character; they are kept in order, each trimmed |
| `Tools.ParsedHelpIsKept` | rust/src/assistant/tools.rs:879-891 | A question is refused if and only if it, once trimmed, or its control identifier has the wrong length, and is otherwise kept |
| `Tools.PatchIsDecoded` | rust/src/assistant/tools.rs:897-900 | The patch that is validated or calculated is the decoded one, where blank text stands for an empty object |
| `Tools.StagedPatchIsDecoded` | rust/src/assistant/tools.rs:901-907 | The patch that is staged is the decoded one, and what cannot be decoded is refused for that reason |
| `Tools.StagedDraftIsDecoded` | rust/src/assistant/tools.rs:908-920 | The draft that is staged is the decoded one but for the trimming of its notes, and what cannot be decoded is refused for that reason |
| `Text.TrimDropsOuterWhitespace` | rust/src/assistant/tools.rs:988-997 | Trimming drops white space at both ends and nothing else |
| `Staging.StagePatch` | rust/src/assistant/tools.rs:1220-1280 | Staging a patch on the stored project gives the outcome `PatchOutcome`, with the rendered diff as its changes |
| `Staging.Dispatch` | rust/src/assistant/tools.rs:1092-1108 | Each parsed call runs its own tool |
| `Staging.StagedProposalIsFaithful` | rust/src/assistant/tools.rs:1306-1529 | A proposal is a valid, non-empty patch of the stored selected project whose changes replay to the candidate, or, with no project selected, a valid draft whose workloads all have the draft's type |
| `Staging.OnlyStagingToolsStage` | rust/src/assistant/tools.rs:1092-1108 | Reads, validation and calculation never stage anything |
| `Staging.StagedPatchReportsNotes` | rust/src/assistant/tools.rs:1255-1279 | A staged patch reports the model's notes unchanged, and without a change it reports at least one |
| `Staging.StagedDraftReportsNotes` | rust/src/assistant/tools.rs:1306-1401 | A staged draft reports the model's omissions, and its uncertainties before the host's own; it lacks a proposal exactly when catalog memory is missing |
| `Staging.PatchIsStagedExactly` | rust/src/assistant/tools.rs:1220-1280 | With a stored selected project, a patch is proposed if and only if its candidate is valid, differs from the stored project, and in no more than 500 places; without a difference its notes are reported if there are any; and each refusal has its code |
| `Staging.DraftIsStagedExactly` | rust/src/assistant/tools.rs:1306-1401 | A draft is proposed if and only if no project is selected, it is valid, and no EC2 workload of it lacks memory both in the draft and in the catalog; in the last case its notes are reported, and each refusal has its code |
| `Staging.DraftKeepsWorkloads` | rust/src/assistant/tools.rs:1403-1529 | A draft has one workload for each proposed one, in order, or one of its type when none is proposed, and none for SQL PAYG; its settings, name and description are those of the input, and it names no price snapshot |
| `Staging.PatchedCandidateIsChecked` | rust/src/assistant/tools.rs:1159-1218 | Validation and calculation answer with the verdict on, and the price of, the stored project with the patch applied, a price only for a valid candidate and a free slot |
| `Staging.StoredProjectIsShown` | rust/src/assistant/tools.rs:1146-1157 | The project that is read is the stored selected one |
| `Staging.WithoutProjectNothingIsChecked` | rust/src/assistant/tools.rs:1692-1714 | Without a stored selected project, the tools that need one report why and do nothing else |
| `Staging.HelpExactly` | rust/src/assistant/tools.rs:1128-1144 | A question about a control is answered from its description, any other from the catalog, and only an unknown control is an error |
| `Staging.StatusTellsOutcome` | rust/src/assistant/tools.rs:1054-1065 | The history status tells the kinds of outcome apart, and a staged proposal from a mere report |
| `Staging.ToBoundedJson` | rust/src/assistant/tools.rs:1068-1088 | A tool result shown to the model is the serialized outcome if that has at most 8000 characters, and otherwise the code that says why not |
| `Policy.Preflight` | rust/src/assistant/policy.rs:57-121 | A batch is accepted exactly when all of it is acceptable, comes back whole and in order, and is otherwise rejected for its size or with the reason of its first call that is not permitted |
| `Policy.RejectsForOneReason` | rust/src/assistant/policy.rs:63-118 | A rejected batch is not acceptable, and its size or its first call that is not permitted determines the reason |
| `Policy.AcceptableMeans` | rust/src/assistant/policy.rs:77-101 | In an acceptable batch identifiers have 1 to 128 letters, digits, hyphens and underscores and are new and all different, tools are exposed, and at most one call mutates, with whatever risk the tools are registered |
| `Transcript.Compact` | rust/src/assistant/turn.rs:353-377 | The loop computes `Compacted` |
| `Transcript.TotalCharsCount` | rust/src/assistant/model.rs:31-42 | What is charged for a transcript is the length of its concatenated text: contents, tool names, and the names and arguments of calls |
| `Transcript.DropsOldestRound` | rust/src/assistant/turn.rs:358-374 | When rounds share no call identifier, dropping by identifier removes exactly the oldest round with exactly its own results |
| `Transcript.SharedIdLosesAnotherRoundsResult` | rust/src/assistant/turn.rs:370-374 | When two rounds share an identifier, the other round loses its result: uniqueness is what keeps compaction sound |
| `Transcript.CompactionKeepsLongestFit` | rust/src/assistant/turn.rs:353-385 | With 128000 characters of text as the limit, compaction fails exactly when instruction and user message alone do not fit, and otherwise leaves the user message and the longest suffix of whole rounds that fits |
| `Transcript.MustDropPersists` | rust/src/assistant/turn.rs:145-158 | A suffix that did not fit never fits again: rounds are only added and the instruction only grows |
| `Turn.RunTurn` | rust/src/assistant/turn.rs:116-268 | Every run ends, its trace is `Sound` and within budget, no deadline check before the last had expired, the repair is set out on exactly when its cause arose, an answer follows at least one dispatched call and reports what was gathered, and every failure has its cause: the very check that expired, the reason preflight has for the last batch, the error of the last reply, a spent budget, never an accepted batch |
| `Turn.DispatchBatch` | rust/src/assistant/turn.rs:239-264 | Accepted calls run in order up to the first deadline check that expired, each with its result message and its effect on what the turn gathered |
| `Turn.ExtendCitations` | rust/src/assistant/turn.rs:387-402 | The loop computes `Cited` |
| `Turn.CitationsAreWhatWasRead` | rust/src/assistant/turn.rs:387-402 | The citations are the control identifiers in the references of dispatched calls, each once |
| `Turn.ProposalIsTheLastStaged` | rust/src/assistant/turn.rs:251-253 | The proposal is the last one staged, and there is none only when none was staged |
| `Turn.NotesAreTheLastReported` | rust/src/assistant/turn.rs:245-250 | Omissions and uncertainties are those of the last staging call, and empty when there was none |
| `Turn.HistoryListsEveryCall` | rust/src/assistant/turn.rs:254-257 | The action history lists every dispatched call in order with its tool and status |
| `Turn.HistoryOnlyGrows` | rust/src/assistant/turn.rs:341-351 | More completed actions never make the instruction shorter, also where the first one replaces the word "none" |
| `Turn.HistoryShowsEveryAction` | rust/src/assistant/turn.rs:341-351 | The instruction shows every completed action by tool and status |
| `Turn.RoutedIsTheLastReported` | rust/src/assistant/turn.rs:190-195 | The routed model of a turn is the last one that a reply named |
| `Turn.LaterReferencesComeLater` | rust/src/assistant/turn.rs:394-401 | Citations come in the order of their first reference |
| `Turn.BatchDone` | rust/src/assistant/turn.rs:236-264 | A finished batch adds one round with exactly its own results in order and keeps the whole loop invariant |
| `Turn.BatchCut` | rust/src/assistant/turn.rs:239-242 | A batch cut short by the deadline leaves a sound trace |
| `Turn.Repairs` | rust/src/assistant/turn.rs:223-233 | Deciding to repair leaves transcript, executed identifiers and log as they were |
| `Turn.Sends` | rust/src/assistant/turn.rs:149-180 | Compacting and sending keeps the invariant: the compaction of what was kept is the compaction of all rounds |
| `TurnResults.RequestsFitAndAreWellFormed` | rust/src/assistant/turn.rs:149-180 | Every request fits 128000 characters and consists of the user message and whole rounds, each batch with exactly its own results in order |
| `TurnResults.NothingIsDroppedNeedlessly` | rust/src/assistant/turn.rs:353-377 | No request leaves out a round that would have fitted together with all later ones |
| `TurnResults.RepairIsOnceAndFirst` | rust/src/assistant/turn.rs:160-187 | The repair is at most the second request, before any dispatch and with the first request's transcript, and the image travels with request one and the repair only |
| `TurnResults.RepairFollowsItsCause` | rust/src/assistant/turn.rs:219-235 | The second request is the repair exactly when the first batch of a classified image turn was rejected for an unknown member |
| `TurnResults.UnknownMemberIsRepairedFirst` | rust/src/assistant/turn.rs:219-235 | A classified image turn never ends with that rejection before the repair was attempted, as long as no tool has run |
| `TurnResults.TurnIsBounded` | rust/src/assistant/budget.rs:12-15 | At most eight requests and twelve calls, no identifier dispatched twice, and every dispatched tool was exposed |
| `TurnResults.ResultsAreTheirOutcomes` | rust/src/assistant/turn.rs:239-264 | For every call of every round the model reads the result of a dispatched call of that identifier and tool, and as its content the serialized outcome, when that has at most 8000 characters |
| `TurnResults.MutationsAreConfirmed` | rust/src/assistant/policy.rs:93-101 | With whatever risk the tools are registered, a dispatched call that writes stored state runs a tool the user has confirmed |
| `TurnResults.ProposalMatchesSelection` | rust/src/assistant/policy.rs:85-112 | The proposal was staged faithfully by one of the dispatched calls and is a patch exactly when a project is selected |
| `TurnResults.ClassifiedDraftHasHostType` | rust/src/assistant/policy.rs:104-112 | In a classified turn the draft and all its workloads have the host's project type |
| `Classification.ClassifyProjectImage` | rust/src/assistant/classification.rs:140-193 | At most three requests, another one only after a malformed reply, and the result is what the last reply says |
| `Classification.AcceptedTypeIsOpenOnlyWhenLow` | rust/src/assistant/classification.rs:123-131 | An accepted classification decides a type exactly when its confidence is not low |
| `Classification.AcceptedIsWhatWasDecoded` | rust/src/assistant/classification.rs:195-238 | What is accepted is the type and confidence that the only call decodes to, with its notes trimmed; and such a call of the right name is refused only without evidence, for notes out of bounds, or for a type left open at more than low confidence |
| `AssistantApi.BindingNeverFails` | rust/src/api/assistant.rs:471-509 | Binding the proposal of a turn never reaches its internal errors, the bound proposal shows that very one, and a bound patch names the selected owner, project and ETag |
| `AssistantApi.BoundPatchIsAcceptedByAction` | rust/src/api/assistant.rs:493-509 | A confirmation sent back as bound passes the identifier check of the action handler |
| `AssistantApi.Image` | rust/src/api/assistant.rs:277-347 | Classifier and turn together stay within eight requests and twelve calls, and the turn runs under the type the classifier resolved |
| `Pointers.UnescapeEscape` | rust/src/assistant/tools.rs:1804-1812 | Unescaping an escaped key returns it, for every key |
| `Pointers.EscapesExactly` | rust/src/assistant/tools.rs:1804-1812 | A tilde is escaped as ~0, a slash as ~1, character by character, and nothing else changes |
| `Pointers.EscapedHasNoSlash` | rust/src/assistant/tools.rs:1804-1812 | Escaped keys contain no slash |
| `Pointers.ParseRender` | rust/src/assistant/tools.rs:1804-1822 | The pointer text of a key path reads back as that path |
| `Pointers.RenderIsInjective` | rust/src/assistant/tools.rs:1804-1822 | Distinct key paths have distinct pointers |
| `Pointers.InsideMeansPrefix` | rust/src/assistant/tools.rs:1804-1822 | One pointer addresses a place inside another only when its path is a proper prefix |
| `Diff.ReplayRebuilds` | rust/src/assistant/tools.rs:1793-1839 | Replaying the changes on the old value gives the new one, for all JSON values, present or absent |
| `DiffPlaces.ChangesExactly` | rust/src/assistant/tools.rs:1793-1839 | A change is listed if and only if its path is a place where the two values first part: they differ there, not as two objects or two arrays, below objects or arrays on both sides; and it holds what stands there before and after |
| `DiffPlaces.ChangesAreLeaves` | rust/src/assistant/tools.rs:1803-1839 | No listed change has objects on both sides or arrays on both sides, and its sides differ |
| `DiffPlaces.ChangesAreInOrder` | rust/src/assistant/tools.rs:1803-1825 | Changes are listed by key and by index, at every level |
| `Json.LessExactly` | rust/src/assistant/tools.rs:1804-1807 | Keys are ordered by their first difference, a proper prefix first |
| `Diff.MirrorRestores` | rust/src/assistant/tools.rs:1793-1839 | Replaying the mirrored changes on the new value gives the old one |
| `Diff.EmptyExactlyWhenEqual` | rust/src/assistant/tools.rs:1799-1801 | No change is listed exactly when nothing differs |
| `Diff.ChangesAreSeparate` | rust/src/assistant/tools.rs:1793-1839 | No changed path equals another or is a prefix of it |
| `Diff.RenderedIsSeparate` | rust/src/assistant/tools.rs:1793-1839 | No listed pointer equals another or addresses a place inside it |
| `Diff.CollectChanges` | rust/src/assistant/tools.rs:1793-1839 | The bounded recursive collector pushes the pointer text of the unbounded diff and fails exactly when the list would exceed 500 entries |
| `Diff.CollectMembers` | rust/src/assistant/tools.rs:1803-1814 | The same for the members of two objects, looked up by unescaped key |
| `Diff.CollectItems` | rust/src/assistant/tools.rs:1815-1825 | The same for the items of two arrays |
| `Diff.ProjectPatchChanges` | rust/src/assistant/tools.rs:1768-1791 | The changes below the members a patch names, or an error exactly when there are more than 500 |
| `Diff.PatchChangesRebuildCandidate` | rust/src/assistant/tools.rs:1768-1791 | The changes listed for a patch replay the serialized base to the serialized candidate and back, are empty exactly when the two are equal, and have separate pointers |
| `DiffPlaces.ListedChangesExactly` | rust/src/assistant/tools.rs:1768-1791 | What is listed for a patch are exactly the places where the stored project and the candidate first part, with what stands there before and after |
| `Projects.PatchSetsWhatItNames` | rust/src/assistant/tools.rs:631-652 | A patch sets the members it names, keeps the others, and changes nothing when applied again |
| `Projects.SerializationLosesNothing` | rust/src/assistant/tools.rs:1774-1779 | Two projects have the same JSON form if and only if they are the same, but for members that the serialized types replace |
| `ConfirmedAction.HistoryIsAChain` | rust/src/api/projects.rs:135-175 | Under every interleaving each write replaces exactly the version it matched, and no two match the same version: no lost update |
| `ConfirmedAction.ProposalIsAppliedAtMostOnce` | rust/src/api/assistant.rs:384-457 | A proposal is applied at most once under any interleaving of writers and replays |
| `ConfirmedAction.ActionInstallsThePatchedVersion` | rust/src/api/assistant.rs:411-434 | An action that installs a version was confirmed, and the version is the patch applied to exactly the one whose ETag the proposal was bound to |
| `ConfirmedAction.SuccessMeansCommitted` | rust/src/api/assistant.rs:435-456 | A success reply means this handler's write is in the history |
| `ConfirmedAction.SuccessSawItsVersion` | rust/src/api/assistant.rs:435-449 | The step that answers with success saw that very version stored |
| `ConfirmedAction.ConfirmAnswers` | rust/src/api/assistant.rs:435-449 | After the write, the answer is success exactly when the re-read succeeds and no later write took effect before it |
| `ConfirmedAction.CommittedActionMayAnswer412` | rust/src/api/assistant.rs:435-449 | From every reachable state there is a run in which an admissible action's write takes effect and it is answered with 412 |
| `ConfirmedAction.UndisturbedCommits` | rust/src/api/projects.rs:135-175 | An admissible request that nobody disturbs does write its candidate |
| `ConfirmedReplies.TurnedAwayExactly` | rust/src/api/assistant.rs:384-410 | In every reachable state an action that was not confirmed, or whose identifier names another owner, project, ETag or patch, is at its check or was turned away with that reason, and no other request is turned away so |
| `ConfirmedReplies.CommittedWasFoundValid` | rust/src/api/projects.rs:143-158 | Whatever was written was, in that run, first found valid and then read again and priced by the handler that wrote it |
| `ConfirmedReplies.RefusalsHaveTheirCause` | rust/src/api/projects.rs:143-175 | An error answer means a fault, a missing project or an invalid candidate; a 412 shows the stored ETag, which differs from the matched one unless it was read after a failed write; and a write fails only for another ETag |
| `ConfirmedReplies.StagedProposalCommits` | rust/src/api/assistant.rs:471-509 | From every reachable state, a turn that stages a valid patch with at most 500 changes binds a proposal that shows them, and its confirmation, undisturbed, installs exactly the patched project and is answered with it |
| `ConfirmedAction.PreviewIsWhatCommits` | rust/src/api/assistant.rs:493-509 | When a confirmation commits, the changes shown to the user are exactly the difference between the replaced and the installed version |
| `Scanner.InlineScriptHashes` | rust/src/server.rs:204-228 | The offset loop ends and returns, one by one, the digests of the scripts that `Scan` finds, or the error |
| `Scanner.ScanPrinted` | rust/src/server.rs:204-228 | The scan of text interleaved with script elements returns, in order, exactly the bodies of those in whose start tag "src=" begins no part |
| `Scanner.ScanAcceptsExactlyDocuments` | rust/src/server.rs:208-216 | The scan succeeds exactly on pages that are such documents, with the same result however they are read as one |
| `Scanner.ExternalMeansSrcBeginsAPart` | rust/src/server.rs:218-221 | A start tag counts as external exactly when "src=" begins one of its whitespace-separated parts |
| `TargetSelection.ChooseMiTargetForEc2` | research/Add-CloudTcoConverters.py:570-614 | The loop and the minimum over sort keys compute `Selection` |
| `TargetSelection.NoneExactlyWhenInfeasible` | research/Add-CloudTcoConverters.py:576-596 | There is no target exactly when no row is feasible |
| `TargetSelection.TargetIsLexicographicMinimum` | research/Add-CloudTcoConverters.py:597-614 | For positive requirements the target meets both and is least in vCores, then in memory, among all rows and options that do |
| `TargetSelection.MemoryOptionsExactly` | research/Add-CloudTcoConverters.py:558-567 | A local premium row of the default tier has the listed options of its whole number of vCores, any other row only its own memory |
| `TargetSelection.TiesPreferLocalThenKey` | research/Add-CloudTcoConverters.py:597-609 | Among rows that offer the target's vCores and memory, one that is not zone-redundant is preferred, and then the one with the least configuration key |
| `TargetSelection.SelectionIgnoresOrder` | research/Add-CloudTcoConverters.py:597-609 | With distinct configuration keys the order of the rows does not matter |
| `TargetSelection.SelectionIsMonotone` | research/Add-CloudTcoConverters.py:570-614 | Raising a requirement never lowers the vCores and never makes an infeasible request feasible |
| `TargetSelection.ZeroRequirementFails` | research/Add-CloudTcoConverters.py:599-602 | A zero requirement is a division error exactly when some row is feasible |
| `EbsCost.ClosedFormIsUnitByUnit` | research/Add-CloudTcoConverters.py:909-918 | The tiered closed form is the sum of the marginal rates, for every IOPS count |
| `EbsCost.IopsCostIsMonotone` | research/Add-CloudTcoConverters.py:909-918 | More IOPS never cost less |
| `EbsCost.ComponentsAreMonotone` | research/Add-CloudTcoConverters.py:880-922 | Only a sized volume of a known type in a priced region costs anything, the errors are exactly the other two cases, and more size, IOPS or throughput never lowers a component |
| `EbsCost.ComponentsExactly` | research/Add-CloudTcoConverters.py:905-922 | A sized volume in a priced region costs its capacity rate per gigabyte, the marginal rate of each provisioned operation, nothing for throughput within the included one and the throughput rate per unit above it |
| `EbsCost.SplittingTiersIsNeverCheaper` | research/Add-CloudTcoConverters.py:913-918 | With non-increasing tier rates splitting an io2 volume is never cheaper in IOPS |
| `EbsCost.SplittingAllowanceIsNeverDearer` | research/Add-CloudTcoConverters.py:911-912 | Splitting a gp3 volume is never dearer in IOPS |
| `EbsCost.SplittingPublishedVolumes` | research/Add-CloudTcoConverters.py:144-153 | Both hold for the published rates of every region |
| `LicenceRates.LicenceFallback` | research/Add-CloudTcoConverters.py:526-555 | The two passes over the rates compute `Fallback` |
| `LicenceRates.FallbackFillsWhatIsMissing` | research/Add-CloudTcoConverters.py:544-554 | Published rates never change, and a missing rate is filled exactly when the instance has a compute rate and its region shows a licence rate |
| `LicenceRates.FallbackChargesLeastCoreRate` | research/Add-CloudTcoConverters.py:526-554 | A filled rate charges per core the least licence rate its region shows |
| `LicenceRates.FilledRateExactly` | research/Add-CloudTcoConverters.py:526-554 | A filled rate is the compute rate of the instance plus, for each of its billable cores, the least licence part per billable core published in its region |
| `LicenceRates.BillableCoresExactly` | research/Add-CloudTcoConverters.py:529 | An instance of at most four vCPUs is charged four cores, a larger one its own |
| `LicenceRates.FallbackIsIdempotent` | research/Add-CloudTcoConverters.py:526-555 | Filling again changes nothing, although filled rates then count as shown |
| `LicenceRates.FallbackIgnoresOrder` | research/Add-CloudTcoConverters.py:526-555 | The order of the entries of the two dictionaries does not matter |
| `Manifest.BuildCalculatorManifest` | rust/src/api/calculator_launches.rs:387-425 | The loop over the rows computes `Built`, with the error of the first row that fails, and puts the items below the fixed header |
| `ManifestGuards.ManifestIsBuiltExactly` | rust/src/api/calculator_launches.rs:387-444 | A manifest is built if and only if the project can be launched, its latest calculation has its formula and prices, one result for each row and none twice, and every row has a result with a fresh price, a supported target, a purchase option, a good name and hours that pass; only a project that cannot be launched is called ineligible |
| `ManifestGuards.ItemIsBuiltExactly` | rust/src/api/calculator_launches.rs:461-537 | A row becomes an item under exactly those conditions, and its error names what it lacks |
| `Manifest.IndexedCalculations` | rust/src/api/calculator_launches.rs:446-458 | Indexing succeeds exactly when no resource has two calculations, and then finds each by its resource |
| `Manifest.ManifestKeepsRows` | rust/src/api/calculator_launches.rs:405-413 | One item per row in row order, each describing its workload by a calculation of that workload, with the accepted monthly hours and the checked sum of its parts |
| `Manifest.EveryCalculationIsUsed` | rust/src/api/calculator_launches.rs:431-458 | A built manifest uses every calculation exactly when the resource identifiers are distinct |
| `Manifest.ManifestIgnoresResultOrder` | rust/src/api/calculator_launches.rs:446-458 | Manifest and error do not depend on the order of the results |
| `Manifest.MonthlyHoursExactly` | rust/src/api/calculator_launches.rs:570-580 | For every decimal up to 8784, when the hours are accepted and when they are exact, both as equivalences, and how far twelve of them stray otherwise |
| `Manifest.HundredHoursAreAccepted` | rust/src/api/calculator_launches.rs:570-580 | A hundred annual hours are accepted with monthly hours whose twelvefold is not a hundred |
| `Decimals.CheckedTwelfthExactly` | rust/src/api/calculator_launches.rs:570-580 | The arithmetic behind it: which amounts survive a rounded division by twelve and a rounded multiplication by twelve |
| `Decimals.WholeHours` | rust/src/api/calculator_launches.rs:570-580 | Whole hours are accepted exactly when they are a multiple of three or at least eight, and are exact in the first case only |
| `Manifest.TotalIsExact` | rust/src/api/calculator_launches.rs:582-590 | The checked total is the exact sum of parts with the same number of decimals as long as that fits |
| `Manifest.TotalNeverRounds` | rust/src/api/calculator_launches.rs:582-590 | No addition of the checked total rounds or fails if and only if every partial sum is a decimal, and then it is the exact sum |
| `Manifest.TotalErrorsMayCancel` | rust/src/api/calculator_launches.rs:582-590 | The total may be exact although a partial sum is not a decimal: two rounding errors cancel |
| `ManifestGuards.PurchaseOptionMeans` | rust/src/api/calculator_launches.rs:551-562 | The hybrid-benefit flag is set exactly for the four options that name it, and the term is kept |
| `Manifest.PurchaseOptionsCorrespond` | rust/src/api/calculator_launches.rs:551-562 | Calculator option and hybrid-benefit flag together stand for exactly one purchase option |
| `Manifest.ItemKeysAreDistinct` | rust/src/api/calculator_launches.rs:501-502 | Rows of one manifest have different item keys |

## Left out

- Repository calls that take effect and still report an error, and handlers cancelled in mid-protocol: a failed step is taken to have had no effect.
- Races between deletion and the creation of calculator launches: deletion purges launches once, before the project is removed, and launch creation does not re-read the project, so the share result does not carry over.
- HTTP, headers, JSON decoding, problem mapping, configuration, authentication, tracing and image encoding; SHA-256, base64 and UUIDs, whose values are opaque.
- Validation of projects, price calculation, pricing snapshots and the help catalog: parameters of the tools.
- Prompt and tool-description text, of which only the lengths and the parts that change during a turn are modelled; the wording of notes the host adds to a draft.
- Contents of a new draft other than its project type and the types of its workloads: defaults of settings, volumes and names are parameters, as is the presence test for catalog memory.
- Normalization of storage measurements inside proposed arguments: part of the decoding parameter.
- That extraction notes are trimmed in place: they are values here. A model call that times out is one of the replies of the model.
- TargetSelection.TargetIsLexicographicMinimum: speaks of positive requirements only; a zero one is the subject of ZeroRequirementFails, and a negative one, which no catalog row has, would reverse the order.
- Negative decimals, which the validation of hours and the prices rule out, and the shorter of two spellings of one decimal (1 and 1.0).
- RateLimit.TokenBucket.Check: does not model rounding of binary floating point nor a poisoned lock.
- Reading of the CSV rows into rates and options, workbook generation, and the browser and desktop clients.
