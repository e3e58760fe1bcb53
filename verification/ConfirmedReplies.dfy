/** What the replies of ConfirmedAction mean, which requests are turned away, that nothing is written that
    was not found valid, and that a staged proposal can be confirmed. */
module ConfirmedReplies {
  import opened Wrappers
  import opened Projects
  import opened Diff
  import opened ConfirmedAction

  // ---- requests that are turned away ----

  /** A request waits for its check, or was turned away at it. */
  predicate NotBeyondCheck(step: Step, refusal: Reply) {
    step == CheckRequest || step == Done(refusal)
  }

  ghost predicate Admission(st: State, h: HandlerId)
    requires h in st.handlers
  {
    var Handler(r, step) := st.handlers[h];
    if r.ActionRequest? && !r.confirmed then NotBeyondCheck(step, ConfirmationRequired)
    else if r.ActionRequest? && r.proposalId != Bind(st, r.expectedEtag, r.patch) then
      NotBeyondCheck(step, ProposalMismatch)
    else step != Done(ConfirmationRequired) && step != Done(ProposalMismatch)
  }

  lemma AdmissionStep(st: State, a: Action, h: HandlerId)
    requires h in Next(st, a).handlers && (h in st.handlers ==> Admission(st, h))
    ensures Admission(Next(st, a), h)
  {
    hide Projects.Apply, ToValue, PatchDiff, Rendered;
  }

  lemma {:induction false} AdmissionHolds(st: State, actions: seq<Action>)
    requires forall h | h in st.handlers :: Admission(st, h)
    ensures forall h | h in Run(st, actions).handlers :: Admission(Run(st, actions), h)
  {
    hide Admission, Next;
    if actions != [] {
      var n := |actions| - 1;
      AdmissionHolds(st, actions[..n]);
      forall h | h in Run(st, actions).handlers
        ensures Admission(Run(st, actions), h)
      {
        AdmissionStep(Run(st, actions[..n]), actions[n], h);
      }
    }
  }

  /** An action that was not confirmed, or whose identifier names another owner, project, ETag or patch,
      gets no further than its check and is turned away with that reason; no other request is. */
  lemma TurnedAwayExactly(st: State, h: HandlerId)
    requires Reachable(st) && h in st.handlers
    ensures var Handler(r, step) := st.handlers[h];
            && (r.ActionRequest? && !r.confirmed ==> step == CheckRequest || step == Done(ConfirmationRequired))
            && (r.ActionRequest? && r.confirmed
                && r.proposalId != ProposalId(st.owner, st.projectId, r.expectedEtag, r.patch) ==>
                  step == CheckRequest || step == Done(ProposalMismatch))
            && (step == Done(ConfirmationRequired) ==> r.ActionRequest? && !r.confirmed)
            && (step == Done(ProposalMismatch) ==>
                  r.ActionRequest? && r.confirmed
                  && r.proposalId != ProposalId(st.owner, st.projectId, r.expectedEtag, r.patch))
  {
    var owner, projectId, first, actions :| st == Run(Init(owner, projectId, first), actions);
    AdmissionHolds(Init(owner, projectId, first), actions);
    hide Run;
    assert Admission(st, h);
  }

  // ---- nothing is written that was not found valid ----

  /** Some action of the run took this step of the handler, with a favourable verdict. */
  ghost predicate PassedStep(start: State, actions: seq<Action>, h: HandlerId, step: Step) {
    exists i: nat ::
      && i < |actions| && actions[i].Advance? && actions[i].handler == h && actions[i].valid
      && var st := Run(start, actions[..i]); h in st.handlers && st.handlers[h].step == step
  }

  lemma PassedStays(start: State, actions: seq<Action>, h: HandlerId, step: Step)
    requires actions != [] && PassedStep(start, actions[..|actions| - 1], h, step)
    ensures PassedStep(start, actions, h, step)
  {
    hide Run;
    var n := |actions| - 1;
    var before := actions[..n];
    var i: nat :| i < n && before[i].Advance? && before[i].handler == h && before[i].valid
      && var st := Run(start, before[..i]); h in st.handlers && st.handlers[h].step == step;
    assert before[..i] == actions[..i] && before[i] == actions[i];
  }

  lemma PassesNow(start: State, actions: seq<Action>, h: HandlerId, step: Step)
    requires actions != []
    requires var n := |actions| - 1;
             var st := Run(start, actions[..n]);
             && actions[n].Advance? && actions[n].handler == h && actions[n].valid
             && h in st.handlers && st.handlers[h].step == step
    ensures PassedStep(start, actions, h, step)
  {
    hide Run;
  }

  ghost predicate FoundValid(start: State, actions: seq<Action>, h: HandlerId, candidate: EditableProject) {
    PassedStep(start, actions, h, Validate(candidate)) && PassedStep(start, actions, h, ReadAgain(candidate))
  }

  ghost predicate CheckedSoFar(start: State, actions: seq<Action>, h: HandlerId, step: Step) {
    match step
    case ReadAgain(candidate) => PassedStep(start, actions, h, Validate(candidate))
    case Swap(candidate) => FoundValid(start, actions, h, candidate)
    case _ => true
  }

  ghost predicate AllValid(start: State, actions: seq<Action>) {
    var st := Run(start, actions);
    && (forall h | h in st.handlers :: CheckedSoFar(start, actions, h, st.handlers[h].step))
    && (forall k | 0 <= k < |st.history| ::
          FoundValid(start, actions, st.history[k].writer, st.history[k].installed.project))
  }

  /** How one action moves a handler. */
  lemma HandlerMoves(st: State, a: Action, h: HandlerId)
    requires h in Next(st, a).handlers
    ensures var after := Next(st, a).handlers[h].step;
            && (h in st.handlers && !(a.Advance? && a.handler == h) ==> after == st.handlers[h].step)
            && (h !in st.handlers ==> after == CheckRequest)
            && (after.ReadAgain? ==>
                  h in st.handlers && (after == st.handlers[h].step
                    || (st.handlers[h].step == Validate(after.candidate) && a.Advance? && a.handler == h && a.valid)))
            && (after.Swap? ==>
                  h in st.handlers && (after == st.handlers[h].step
                    || (st.handlers[h].step == ReadAgain(after.candidate) && a.Advance? && a.handler == h && a.valid)))
  {
    hide Projects.Apply, ToValue, PatchDiff, Rendered, Bind;
  }

  lemma HandlersStayChecked(start: State, actions: seq<Action>, h: HandlerId)
    requires actions != [] && AllValid(start, actions[..|actions| - 1]) && h in Run(start, actions).handlers
    ensures CheckedSoFar(start, actions, h, Run(start, actions).handlers[h].step)
  {
    var n := |actions| - 1;
    var before, a := Run(start, actions[..n]), actions[n];
    assert Run(start, actions) == Next(before, a);
    HandlerMoves(before, a, h);
    hide Run, Next, PassedStep;
    var after := Next(before, a).handlers[h].step;
    if h in before.handlers {
      assert CheckedSoFar(start, actions[..n], h, before.handlers[h].step);
      if after.ReadAgain? || after.Swap? {
        if after == before.handlers[h].step {
          if PassedStep(start, actions[..n], h, Validate(after.candidate)) {
            PassedStays(start, actions, h, Validate(after.candidate));
          }
          if PassedStep(start, actions[..n], h, ReadAgain(after.candidate)) {
            PassedStays(start, actions, h, ReadAgain(after.candidate));
          }
        } else {
          PassesNow(start, actions, h, before.handlers[h].step);
          if PassedStep(start, actions[..n], h, Validate(after.candidate)) {
            PassedStays(start, actions, h, Validate(after.candidate));
          }
        }
      }
    }
  }

  lemma CommitsStayChecked(start: State, actions: seq<Action>, k: nat)
    requires actions != [] && AllValid(start, actions[..|actions| - 1]) && k < |Run(start, actions).history|
    ensures var c := Run(start, actions).history[k]; FoundValid(start, actions, c.writer, c.installed.project)
  {
    var n := |actions| - 1;
    var before, a := Run(start, actions[..n]), actions[n];
    assert Run(start, actions) == Next(before, a);
    NextWrites(before, a);
    hide Run, Next, PassedStep;
    var c := Next(before, a).history[k];
    if k < |before.history| {
      assert before.history[k] == c;
    } else {
      assert CheckedSoFar(start, actions[..n], a.handler, before.handlers[a.handler].step);
    }
    PassedStays(start, actions, c.writer, Validate(c.installed.project));
    PassedStays(start, actions, c.writer, ReadAgain(c.installed.project));
  }

  lemma {:induction false} AllStayValid(start: State, actions: seq<Action>)
    requires start.handlers == map[] && start.history == []
    ensures AllValid(start, actions)
  {
    if actions != [] {
      AllStayValid(start, actions[..|actions| - 1]);
      hide Run, CheckedSoFar, FoundValid, AllValid;
      ValidOneMore(start, actions);
    }
  }

  lemma ValidOneMore(start: State, actions: seq<Action>)
    requires actions != [] && AllValid(start, actions[..|actions| - 1])
    ensures AllValid(start, actions)
  {
    forall h | h in Run(start, actions).handlers
      ensures CheckedSoFar(start, actions, h, Run(start, actions).handlers[h].step)
    {
      HandlersStayChecked(start, actions, h);
    }
    forall k: nat | k < |Run(start, actions).history|
      ensures var c := Run(start, actions).history[k]; FoundValid(start, actions, c.writer, c.installed.project)
    {
      CommitsStayChecked(start, actions, k);
    }
    hide Run, CheckedSoFar, FoundValid;
  }

  /** Whatever was written was first found valid, and then read against and priced, by the handler that
      wrote it. */
  lemma CommittedWasFoundValid(owner: string, projectId: nat, first: Version, actions: seq<Action>, k: nat)
    requires k < |Run(Init(owner, projectId, first), actions).history|
    ensures var start := Init(owner, projectId, first);
            var c := Run(start, actions).history[k];
            && PassedStep(start, actions, c.writer, Validate(c.installed.project))
            && PassedStep(start, actions, c.writer, ReadAgain(c.installed.project))
  {
    AllStayValid(Init(owner, projectId, first), actions);
    hide Run, PassedStep;
  }

  // ---- what a refusal means ----

  /** A request fails only for a fault, a missing project or an invalid candidate; a 412 shows the stored
      ETag; it is not the one the request names, unless it is read once more after the write has failed;
      and the write is given up only for another ETag. */
  lemma RefusalsHaveTheirCause(st: State, h: HandlerId, fault: bool, valid: bool, newEtag: Etag)
    requires Reachable(st) && h in st.handlers && !st.handlers[h].step.Done?
    ensures var Handler(r, step) := st.handlers[h];
            var after := AdvanceHandler(st, h, fault, valid, newEtag).handlers[h].step;
            && (after == Done(OtherError) ==> fault || st.current.None? || !valid)
            && (after.Done? && after.reply.PreconditionFailed? && after.reply.seen.Some? ==>
                  && !fault && st.current.Some? && after.reply.seen.value == st.current.value.etag
                  && (step != ReadAfterConflict ==> st.current.value.etag != IfMatch(r)))
            && (after.Done? && after.reply.PreconditionFailed? && after.reply.seen.None? ==>
                  step == ReadAfterConflict && (fault || st.current.None?))
            && (after == ReadAfterConflict ==>
                  !fault && step.Swap? && st.current.Some? && st.current.value.etag != IfMatch(r))
  {
    ReachableInv(st);
    assert HandlerInv(st, h);
    hide Projects.Apply, ToValue, Bind, CommitInv, ProposalInv, TurnInv;
    if st.handlers[h].step.Confirm? {
      ConfirmConflict(st, h);
    }
    hide HandlerInv, Chain, Reachable;
  }

  /** A version stored after a write does not have the ETag that the write replaced. */
  lemma ConfirmConflict(st: State, h: HandlerId)
    requires Chain(st) && h in st.handlers && st.handlers[h].step.Confirm? && HandlerInv(st, h)
    ensures st.current.Some? ==> st.current.value.etag != IfMatch(st.handlers[h].request)
    ensures st.current.Some? && st.current.value.etag == st.handlers[h].step.writtenEtag ==>
              st.current.value.project == st.handlers[h].step.expected
  {
    var r, expected, etag := st.handlers[h].request, st.handlers[h].step.expected, st.handlers[h].step.writtenEtag;
    ConfirmSeesTheCommit(st, h, expected, etag);
    var k: nat :| k < |st.history| && st.history[k] == Commit(IfMatch(r), Version(etag, expected), h, r);
    assert st.history[k].base == VersionAt(st, k).etag;
    if st.current.Some? {
      assert st.current.value == VersionAt(st, |st.history|);
      assert VersionAt(st, k).etag != VersionAt(st, |st.history|).etag;
    }
  }

  // ---- a staged proposal can be confirmed ----

  /** From every reachable state: a turn that selects the project and stages a valid patch with changes
      binds a proposal that shows them, and its confirmation, undisturbed, installs the patched project. */
  lemma StagedProposalCommits(st: State, turn: HandlerId, h: HandlerId, patch: ProjectPatch, newEtag: Etag)
    requires Reachable(st) && st.current.Some? && turn !in st.turns && h !in st.handlers && newEtag !in st.usedEtags
    requires var base := st.current.value.project;
             0 < |PatchDiff(base, Projects.Apply(patch, base), patch)| <= MAX_PROPOSAL_CHANGES
    ensures var Version(etag, base) := st.current.value;
            var candidate := Projects.Apply(patch, base);
            var id := ProposalId(st.owner, st.projectId, etag, patch);
            exists end: State ::
              && Reachable(end)
              && end.proposals
                 == st.proposals + [Proposal(id, Rendered(PatchDiff(base, candidate, patch)), |st.history|)]
              && h in end.handlers
              && end.handlers[h].request == ActionRequest(true, id, etag, patch)
              && end.handlers[h].step == Done(Success(Version(newEtag, candidate)))
              && end.current == Some(Version(newEtag, candidate))
  {
    var Version(etag, base) := st.current.value;
    var candidate := Projects.Apply(patch, base);
    var id := Bind(st, etag, patch);
    var staged := StagesIt(st, turn, patch);
    var r := ActionRequest(true, id, etag, patch);
    assert Admissible(staged, r) && Candidate(r, base) == candidate;
    UndisturbedCommits(staged, h, r, newEtag);
    var written := Install(staged, r, candidate, h, newEtag);
    Quiet(written, h, r, Confirm(candidate, newEtag), 0);
    hide Reachable, Projects.Apply, PatchDiff, Rendered, ToValue, Candidate, Admissible;
    var end := At(written, h, r, Done(Success(Version(newEtag, candidate))));
    assert StepAfter(At(written, h, r, Confirm(candidate, newEtag)), r, Confirm(candidate, newEtag), false, true, 0)
      == Done(Success(Version(newEtag, candidate)));
    assert Reachable(end);
  }

  lemma StagesIt(st: State, turn: HandlerId, patch: ProjectPatch) returns (staged: State)
    requires Reachable(st) && st.current.Some? && turn !in st.turns
    requires var base := st.current.value.project;
             0 < |PatchDiff(base, Projects.Apply(patch, base), patch)| <= MAX_PROPOSAL_CHANGES
    ensures Reachable(staged)
    ensures var Version(etag, base) := st.current.value;
            var cs := PatchDiff(base, Projects.Apply(patch, base), patch);
            staged == st.(turns := staged.turns,
              proposals := st.proposals + [Proposal(Bind(st, etag, patch), Rendered(cs), |st.history|)])
  {
    var a := Next(st, StartTurn(turn));
    ReachableNext(st, StartTurn(turn));
    var b := Next(a, TurnSelects(turn));
    ReachableNext(a, TurnSelects(turn));
    staged := Next(b, TurnStages(turn, patch, true));
    ReachableNext(b, TurnStages(turn, patch, true));
    hide Reachable, Projects.Apply, PatchDiff, Rendered;
  }
}
