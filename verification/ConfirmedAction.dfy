/** Confirmed actions under optimistic concurrency: action in rust/src/api/assistant.rs on top of
    update_project_document in rust/src/api/projects.rs, for one project of one owner.

    Assistant turns select the project and later stage a patch; confirmed actions and ordinary
    updates write it; all of them interleave freely and any repository call may fail.  The
    repository contract is that of ProjectRepository::update: it succeeds only when the stored ETag
    equals if_match, and then installs a version with an ETag that was never used. */
module ConfirmedAction {
  import opened Wrappers
  import opened Projects
  import opened Diff

  type Etag = nat
  type HandlerId = nat

  datatype Version = Version(etag: Etag, project: EditableProject)

  /** The digest of owner, project, ETag, action and patch, taken to be injective. */
  datatype ProposalId = ProposalId(owner: string, projectId: nat, etag: Etag, patch: ProjectPatch)

  datatype Request =
    | ActionRequest(confirmed: bool, proposalId: ProposalId, expectedEtag: Etag, patch: ProjectPatch)
    | UpdateRequest(ifMatch: Etag, project: EditableProject)

  datatype Reply =
    | Success(version: Version)
    | PreconditionFailed(seen: Option<Etag>)
    | ConfirmationRequired
    | ProposalMismatch
    | OtherError

  datatype Step =
    | CheckRequest
    | ReadBase
    | Validate(candidate: EditableProject)
    | ReadAgain(candidate: EditableProject)
    | Swap(candidate: EditableProject)
    | ReadAfterConflict
    | Confirm(expected: EditableProject, writtenEtag: Etag)
    | Done(reply: Reply)

  datatype Handler = Handler(request: Request, step: Step)

  /** A bound proposal with the changes shown to the user.  `stagedAt` counts the commits before it. */
  datatype Proposal = Proposal(id: ProposalId, changes: seq<PatchChange>, stagedAt: nat)

  /** One write that took effect: the ETag it replaced, what it installed, and who asked for it. */
  datatype Commit = Commit(base: Etag, installed: Version, writer: HandlerId, request: Request)

  datatype State = State(
    owner: string,
    projectId: nat,
    initial: Version,
    current: Option<Version>,
    history: seq<Commit>,
    usedEtags: set<Etag>,
    turns: map<HandlerId, Option<Etag>>,  // the ETag of the selected project, once read
    proposals: seq<Proposal>,
    handlers: map<HandlerId, Handler>)

  datatype Action =
    | DeleteProject
    | StartTurn(handler: HandlerId)
    | TurnSelects(handler: HandlerId)
    | TurnStages(handler: HandlerId, patch: ProjectPatch, valid: bool)
    | StartHandler(handler: HandlerId, request: Request)
    | Advance(handler: HandlerId, fault: bool, valid: bool, newEtag: Etag)

  function Init(owner: string, projectId: nat, first: Version): State {
    State(owner, projectId, first, Some(first), [], {first.etag}, map[], [], map[])
  }

  function Bind(st: State, etag: Etag, patch: ProjectPatch): ProposalId {
    ProposalId(st.owner, st.projectId, etag, patch)
  }

  function IfMatch(r: Request): Etag {
    if r.ActionRequest? then r.expectedEtag else r.ifMatch
  }

  /** stage_project_patch on the project as stored now, then bind_proposal with the ETag selected
      when the turn began. */
  ghost function Stage(st: State, h: HandlerId, patch: ProjectPatch, valid: bool): State {
    if h !in st.turns || st.turns[h].None? || st.current.None? || !valid then st else
      var base := st.current.value.project;
      var cs := PatchDiff(base, Projects.Apply(patch, base), patch);
      if cs == [] || |cs| > MAX_PROPOSAL_CHANGES then st
      else st.(proposals := st.proposals + [Proposal(Bind(st, st.turns[h].value, patch), Rendered(cs), |st.history|)])
  }

  /** The stored project still has the ETag this request matches, and can be read. */
  predicate Matches(st: State, r: Request, fault: bool) {
    !fault && st.current.Some? && st.current.value.etag == IfMatch(r)
  }

  function Conflict(st: State, fault: bool): Step {
    if fault || st.current.None? then Done(OtherError) else Done(PreconditionFailed(Some(st.current.value.etag)))
  }

  /** Where a handler goes next.  `fault` makes a repository call unavailable; `valid` is the outcome
      of validation and of the price calculation. */
  function StepAfter(st: State, r: Request, step: Step, fault: bool, valid: bool, newEtag: Etag): Step {
    match step
    case CheckRequest =>
      if r.UpdateRequest? then Validate(r.project)
      else if !r.confirmed then Done(ConfirmationRequired)
      else if r.proposalId != Bind(st, r.expectedEtag, r.patch) then Done(ProposalMismatch)
      else ReadBase
    case ReadBase =>
      if !Matches(st, r, fault) then Conflict(st, fault)
      else if r.UpdateRequest? then Done(OtherError)
      else Validate(Projects.Apply(r.patch, st.current.value.project))
    case Validate(candidate) => if valid then ReadAgain(candidate) else Done(OtherError)
    case ReadAgain(candidate) =>
      if !Matches(st, r, fault) then Conflict(st, fault)
      else if valid then Swap(candidate)
      else Done(OtherError)
    case Swap(candidate) =>
      if fault || st.current.None? then Done(OtherError)
      else if !Matches(st, r, fault) then ReadAfterConflict
      else if newEtag in st.usedEtags then step
      else if r.ActionRequest? then Confirm(candidate, newEtag)
      else Done(Success(Version(newEtag, candidate)))
    case ReadAfterConflict =>
      Done(PreconditionFailed(if fault || st.current.None? then None else Some(st.current.value.etag)))
    case Confirm(expected, writtenEtag) =>
      if !fault && st.current.Some? && st.current.value.etag == writtenEtag
        && ToValue(st.current.value.project) == ToValue(expected)
      then Done(Success(st.current.value))
      else Conflict(st, fault)
    case Done(_) => step
  }

  /** The repository's update: it takes effect only on the matched ETag, and with a new one. */
  predicate Commits(st: State, r: Request, step: Step, fault: bool, newEtag: Etag) {
    step.Swap? && Matches(st, r, fault) && newEtag !in st.usedEtags
  }

  function Install(st: State, r: Request, candidate: EditableProject, h: HandlerId, newEtag: Etag): State {
    var installed := Version(newEtag, candidate);
    st.(current := Some(installed), usedEtags := st.usedEtags + {newEtag},
      history := st.history + [Commit(IfMatch(r), installed, h, r)])
  }

  /** One step of an action or update handler. */
  function AdvanceHandler(st: State, h: HandlerId, fault: bool, valid: bool, newEtag: Etag): State
    requires h in st.handlers
  {
    var r, step := st.handlers[h].request, st.handlers[h].step;
    var stored := if Commits(st, r, step, fault, newEtag) then Install(st, r, step.candidate, h, newEtag) else st;
    stored.(handlers := st.handlers[h := Handler(r, StepAfter(st, r, step, fault, valid, newEtag))])
  }

  /** An action that is not enabled leaves the state alone. */
  ghost function Next(st: State, a: Action): State {
    match a
    case DeleteProject => st.(current := None)
    case StartTurn(h) => if h in st.turns then st else st.(turns := st.turns[h := None])
    case TurnSelects(h) =>
      if h !in st.turns || st.turns[h].Some? || st.current.None? then st
      else st.(turns := st.turns[h := Some(st.current.value.etag)])
    case TurnStages(h, patch, valid) => Stage(st, h, patch, valid)
    case StartHandler(h, r) =>
      if h in st.handlers then st else st.(handlers := st.handlers[h := Handler(r, CheckRequest)])
    case Advance(h, fault, valid, newEtag) =>
      if h in st.handlers then AdvanceHandler(st, h, fault, valid, newEtag) else st
  }

  ghost function Run(st: State, actions: seq<Action>): State {
    if actions == [] then st else Next(Run(st, actions[..|actions| - 1]), actions[|actions| - 1])
  }

  // ---- the invariant ----

  /** Every version that was ever stored, oldest first. */
  function VersionAt(st: State, i: nat): Version
    requires i <= |st.history|
  {
    if i == 0 then st.initial else st.history[i - 1].installed
  }

  /** The history is a chain: each commit replaced exactly the version before it. */
  ghost predicate Chain(st: State) {
    && (forall i: nat {:trigger VersionAt(st, i)} | i < |st.history| :: st.history[i].base == VersionAt(st, i).etag)
    && (forall i: nat | i <= |st.history| :: VersionAt(st, i).etag in st.usedEtags)
    && (forall i: nat, j: nat | i < j <= |st.history| :: VersionAt(st, i).etag != VersionAt(st, j).etag)
    && (st.current.Some? ==> st.current.value == VersionAt(st, |st.history|))
  }

  lemma EtagsIdentifyVersions(st: State)
    requires Chain(st)
    ensures forall i: nat, j: nat | i <= |st.history| && j <= |st.history|
            && VersionAt(st, i).etag == VersionAt(st, j).etag :: i == j
  {
  }

  ghost predicate FromVersion(st: State, r: Request, candidate: EditableProject) {
    match r
    case UpdateRequest(_, project) => candidate == project
    case ActionRequest(confirmed, id, etag, patch) =>
      && confirmed && id == Bind(st, etag, patch)
      && exists i: nat ::
        i <= |st.history| && VersionAt(st, i).etag == etag
        && candidate == Projects.Apply(patch, VersionAt(st, i).project)
  }

  ghost predicate HandlerInv(st: State, h: HandlerId)
    requires h in st.handlers
  {
    var r := st.handlers[h].request;
    match st.handlers[h].step
    case ReadBase => r.ActionRequest? && r.confirmed && r.proposalId == Bind(st, r.expectedEtag, r.patch)
    case Validate(candidate) => FromVersion(st, r, candidate)
    case ReadAgain(candidate) => FromVersion(st, r, candidate)
    case Swap(candidate) => FromVersion(st, r, candidate)
    case Confirm(expected, etag) => exists k: nat ::
      k < |st.history| && st.history[k] == Commit(IfMatch(r), Version(etag, expected), h, r)
    case Done(Success(version)) => exists k: nat ::
      k < |st.history| && st.history[k] == Commit(IfMatch(r), version, h, r)
    case _ => true
  }

  /** Each commit was made by its handler, from what that handler was asked to write. */
  ghost predicate CommitInv(st: State, k: nat)
    requires k < |st.history|
  {
    var c := st.history[k];
    && c.writer in st.handlers && st.handlers[c.writer].request == c.request
    && IfMatch(c.request) == c.base
    && FromVersion(st, c.request, c.installed.project)
  }

  ghost predicate ProposalInv(st: State, p: Proposal) {
    && p.id == Bind(st, p.id.etag, p.id.patch)
    && p.stagedAt <= |st.history|
    && (exists i: nat :: i <= p.stagedAt && VersionAt(st, i).etag == p.id.etag)
    && var base := VersionAt(st, p.stagedAt).project;
       p.changes == Rendered(PatchDiff(base, Projects.Apply(p.id.patch, base), p.id.patch))
  }

  ghost predicate Inv(st: State) {
    && Chain(st)
    && (forall h | h in st.handlers :: HandlerInv(st, h))
    && (forall k: nat | k < |st.history| :: CommitInv(st, k))
    && (forall h | h in st.turns :: TurnInv(st, h))
    && (forall p | p in st.proposals :: ProposalInv(st, p))
  }

  /** Versions that were stored stay where they are. */
  ghost predicate Extends(st: State, next: State) {
    && st.owner == next.owner && st.projectId == next.projectId && st.initial == next.initial
    && st.history <= next.history
    && (forall h | h in st.handlers :: h in next.handlers && next.handlers[h].request == st.handlers[h].request)
  }

  /** What was committed, if anything: the only way the history, the stored version and the used
      ETags change, other than the deletion of the project. */
  ghost predicate Written(st: State, a: Action, next: State) {
    if next.history == st.history then
      next.usedEtags == st.usedEtags && (next.current == st.current || next.current.None?)
    else
      && a.Advance? && a.handler in st.handlers
      && var r, step := st.handlers[a.handler].request, st.handlers[a.handler].step;
      && step.Swap? && st.current.Some? && st.current.value.etag == IfMatch(r) && a.newEtag !in st.usedEtags
      && next.history == st.history + [Commit(IfMatch(r), Version(a.newEtag, step.candidate), a.handler, r)]
      && next.current == Some(Version(a.newEtag, step.candidate))
      && next.usedEtags == st.usedEtags + {a.newEtag}
  }

  lemma NextWrites(st: State, a: Action)
    ensures Written(st, a, Next(st, a))
  {
    hide Projects.Apply, ToValue, PatchDiff, Rendered, Bind, StepAfter;
  }

  lemma NextExtends(st: State, a: Action)
    ensures Extends(st, Next(st, a))
  {
    hide Projects.Apply, ToValue, PatchDiff, Rendered, Bind, StepAfter;
  }

  lemma FromVersionExtends(st: State, next: State, r: Request, candidate: EditableProject)
    requires Extends(st, next) && FromVersion(st, r, candidate)
    ensures FromVersion(next, r, candidate)
  {
    if r.ActionRequest? {
      var i: nat :| i <= |st.history| && VersionAt(st, i).etag == r.expectedEtag
        && candidate == Projects.Apply(r.patch, VersionAt(st, i).project);
      assert VersionAt(next, i) == VersionAt(st, i);
    }
  }

  lemma HandlerInvExtends(st: State, next: State, h: HandlerId)
    requires Extends(st, next) && h in st.handlers && HandlerInv(st, h) && next.handlers[h] == st.handlers[h]
    ensures HandlerInv(next, h)
  {
    var r, step := st.handlers[h].request, st.handlers[h].step;
    match step {
      case Validate(candidate) => FromVersionExtends(st, next, r, candidate);
      case ReadAgain(candidate) => FromVersionExtends(st, next, r, candidate);
      case Swap(candidate) => FromVersionExtends(st, next, r, candidate);
      case Confirm(expected, etag) =>
        var k: nat :| k < |st.history| && st.history[k] == Commit(IfMatch(r), Version(etag, expected), h, r);
        assert next.history[k] == st.history[k];
      case Done(Success(version)) =>
        var k: nat :| k < |st.history| && st.history[k] == Commit(IfMatch(r), version, h, r);
        assert next.history[k] == st.history[k];
      case _ =>
    }
  }

  lemma CommitInvExtends(st: State, next: State, k: nat)
    requires Extends(st, next) && k < |st.history| && CommitInv(st, k)
    ensures CommitInv(next, k)
  {
    assert next.history[k] == st.history[k];
    FromVersionExtends(st, next, st.history[k].request, st.history[k].installed.project);
  }

  lemma ProposalInvExtends(st: State, next: State, p: Proposal)
    requires Extends(st, next) && ProposalInv(st, p)
    ensures ProposalInv(next, p)
  {
    var i: nat :| i <= p.stagedAt && VersionAt(st, i).etag == p.id.etag;
    assert VersionAt(next, i) == VersionAt(st, i);
    assert VersionAt(next, p.stagedAt) == VersionAt(st, p.stagedAt);
  }

  lemma ChainExtends(st: State, a: Action, next: State)
    requires Chain(st) && Extends(st, next) && Written(st, a, next)
    ensures Chain(next)
  {
    var n := |st.history|;
    assert forall i: nat | i <= n :: VersionAt(next, i) == VersionAt(st, i);
    if next.history != st.history {
      var etag := st.current.value.etag;
      assert VersionAt(next, n + 1).etag == a.newEtag;
      assert next.history[n].base == VersionAt(next, n).etag;
      forall i: nat | i < |next.history|
        ensures next.history[i].base == VersionAt(next, i).etag
      {
        if i < n { assert next.history[i] == st.history[i]; }
      }
    }
  }

  lemma NextKeepsChain(st: State, a: Action)
    requires Inv(st)
    ensures Chain(Next(st, a))
  {
    NextExtends(st, a);
    NextWrites(st, a);
    hide Next, HandlerInv, CommitInv, ProposalInv, TurnInv, Chain, Written, Extends;
    ChainExtends(st, a, Next(st, a));
  }

  lemma AdvanceKeepsHandler(st: State, h: HandlerId, fault: bool, valid: bool, newEtag: Etag)
    requires Inv(st) && h in st.handlers
    ensures HandlerInv(AdvanceHandler(st, h, fault, valid, newEtag), h)
  {
    var a := Advance(h, fault, valid, newEtag);
    var next := AdvanceHandler(st, h, fault, valid, newEtag);
    assert next == Next(st, a);
    var r, step := st.handlers[h].request, st.handlers[h].step;
    assert next.handlers[h] == Handler(r, StepAfter(st, r, step, fault, valid, newEtag));
    assert HandlerInv(st, h);
    NextExtends(st, a);
    NextWrites(st, a);
    hide Next, AdvanceHandler, Projects.Apply, ToValue, Bind, FromVersion, CommitInv, ProposalInv;
    match step {
      case CheckRequest => StartKeepsHandler(st, next, h, fault, valid, newEtag);
      case ReadBase => ReadKeepsHandler(st, next, h, fault, valid, newEtag);
      case Validate(candidate) => FromVersionExtends(st, next, r, candidate);
      case ReadAgain(candidate) => FromVersionExtends(st, next, r, candidate);
      case Swap(candidate) => SwapKeepsHandler(st, next, h, fault, valid, newEtag);
      case Confirm(expected, etag) => ConfirmKeepsHandler(st, next, h, fault, valid, newEtag);
      case Done(_) => HandlerInvExtends(st, next, h);
      case ReadAfterConflict =>
    }
  }

  ghost predicate Stepped(st: State, next: State, h: HandlerId, fault: bool, valid: bool, newEtag: Etag) {
    && h in st.handlers && h in next.handlers
    && next.handlers[h]
      == Handler(st.handlers[h].request,
      StepAfter(st, st.handlers[h].request, st.handlers[h].step, fault, valid, newEtag))
    && Extends(st, next)
    && Written(st, Advance(h, fault, valid, newEtag), next)
  }

  lemma StartKeepsHandler(st: State, next: State, h: HandlerId, fault: bool, valid: bool, newEtag: Etag)
    requires Stepped(st, next, h, fault, valid, newEtag) && st.handlers[h].step.CheckRequest?
    ensures HandlerInv(next, h)
  {
    hide Projects.Apply, ToValue;
  }

  lemma ReadKeepsHandler(st: State, next: State, h: HandlerId, fault: bool, valid: bool, newEtag: Etag)
    requires Stepped(st, next, h, fault, valid, newEtag) && st.handlers[h].step.ReadBase?
    requires Chain(st) && HandlerInv(st, h)
    ensures HandlerInv(next, h)
  {
    hide Projects.Apply, ToValue;
    if next.handlers[h].step.Validate? {
      assert VersionAt(next, |st.history|) == st.current.value;
    }
  }

  lemma SwapKeepsHandler(st: State, next: State, h: HandlerId, fault: bool, valid: bool, newEtag: Etag)
    requires Stepped(st, next, h, fault, valid, newEtag) && st.handlers[h].step.Swap?
    requires Chain(st) && HandlerInv(st, h)
    requires next == AdvanceHandler(st, h, fault, valid, newEtag)
    ensures HandlerInv(next, h)
  {
    var r, candidate := st.handlers[h].request, st.handlers[h].step.candidate;
    FromVersionExtends(st, next, r, candidate);
    hide Projects.Apply, ToValue, Bind, FromVersion, Chain, Extends;
    if Commits(st, r, st.handlers[h].step, fault, newEtag) {
      assert next.history[|st.history|] == Commit(IfMatch(r), Version(newEtag, candidate), h, r);
    }
  }

  lemma ConfirmKeepsHandler(st: State, next: State, h: HandlerId, fault: bool, valid: bool, newEtag: Etag)
    requires Stepped(st, next, h, fault, valid, newEtag) && st.handlers[h].step.Confirm?
    requires Chain(st) && HandlerInv(st, h)
    ensures HandlerInv(next, h)
  {
    var expected, etag := st.handlers[h].step.expected, st.handlers[h].step.writtenEtag;
    ConfirmSeesTheCommit(st, h, expected, etag);
    hide Projects.Apply, ToValue, Chain, Written;
    var k: nat :| k < |st.history|
      && st.history[k] == Commit(IfMatch(st.handlers[h].request), Version(etag, expected), h, st.handlers[h].request);
    hide HandlerInv;
    assert next.history[k] == st.history[k];
    AnsweredFromCommit(next, h, k);
  }

  lemma AnsweredFromCommit(st: State, h: HandlerId, k: nat)
    requires h in st.handlers && k < |st.history| && st.history[k].writer == h
             && st.history[k].request == st.handlers[h].request
    requires st.history[k].base == IfMatch(st.handlers[h].request)
    requires st.handlers[h].step.Done?
    requires st.handlers[h].step.reply.Success? ==> st.handlers[h].step.reply.version == st.history[k].installed
    ensures HandlerInv(st, h)
  {
    if st.handlers[h].step.reply.Success? {
      assert st.history[k]
        == Commit(IfMatch(st.handlers[h].request), st.handlers[h].step.reply.version, h, st.handlers[h].request);
    }
  }

  lemma NextKeepsCommits(st: State, a: Action, k: nat)
    requires Inv(st) && k < |Next(st, a).history|
    ensures CommitInv(Next(st, a), k)
  {
    var next := Next(st, a);
    NextExtends(st, a);
    NextWrites(st, a);
    if k < |st.history| {
      assert CommitInv(st, k);
      CommitInvExtends(st, next, k);
    } else {
      assert HandlerInv(st, a.handler);
      NewCommit(st, a, next);
    }
  }

  lemma NewCommit(st: State, a: Action, next: State)
    requires Extends(st, next) && Written(st, a, next) && next.history != st.history
    requires HandlerInv(st, a.handler)
    ensures |next.history| == |st.history| + 1 && CommitInv(next, |st.history|)
  {
    FromVersionExtends(st, next, st.handlers[a.handler].request, st.handlers[a.handler].step.candidate);
  }

  /** When the re-read shows the written ETag it shows the written version. */
  lemma ConfirmSeesTheCommit(st: State, h: HandlerId, expected: EditableProject, etag: Etag)
    requires Chain(st) && h in st.handlers && HandlerInv(st, h) && st.handlers[h].step == Confirm(expected, etag)
    ensures st.current.Some? && st.current.value.etag == etag ==> st.current.value == Version(etag, expected)
  {
    var k: nat :| k < |st.history|
      && st.history[k] == Commit(IfMatch(st.handlers[h].request), Version(etag, expected), h, st.handlers[h].request);
    assert VersionAt(st, k + 1) == Version(etag, expected);
    EtagsIdentifyVersions(st);
  }

  lemma NextKeepsProposals(st: State, a: Action, p: Proposal)
    requires Inv(st) && p in Next(st, a).proposals
    ensures ProposalInv(Next(st, a), p)
  {
    var next := Next(st, a);
    NextExtends(st, a);
    if p in st.proposals {
      ProposalInvExtends(st, next, p);
    } else {
      assert a.TurnStages?;
      assert VersionAt(next, |st.history|) == st.current.value;
      var i: nat :| i <= |st.history| && VersionAt(st, i).etag == st.turns[a.handler].value;
      assert VersionAt(next, i) == VersionAt(st, i);
    }
  }

  ghost predicate TurnInv(st: State, h: HandlerId)
    requires h in st.turns
  {
    st.turns[h].Some? ==> exists i: nat :: i <= |st.history| && VersionAt(st, i).etag == st.turns[h].value
  }

  lemma NextKeepsTurns(st: State, a: Action, h: HandlerId)
    requires Inv(st) && h in Next(st, a).turns
    ensures TurnInv(Next(st, a), h)
  {
    var next := Next(st, a);
    NextExtends(st, a);
    if h in st.turns && st.turns[h].Some? {
      NextTurn(st, a, h);
      hide Next;
      assert TurnInv(st, h);
      var i: nat :| i <= |st.history| && VersionAt(st, i).etag == st.turns[h].value;
      assert VersionAt(next, i) == VersionAt(st, i);
    } else if next.turns[h].Some? {
      NextTurn(st, a, h);
      hide Next;
      assert VersionAt(next, |next.history|) == st.current.value;
    }
  }

  lemma NextTurn(st: State, a: Action, h: HandlerId)
    requires h in Next(st, a).turns && Next(st, a).turns[h].Some?
    ensures var next := Next(st, a);
            if h in st.turns && st.turns[h].Some? then next.turns[h] == st.turns[h]
            else next.history == st.history && st.current.Some? && next.turns[h].value == st.current.value.etag
  {
    hide Projects.Apply, ToValue, PatchDiff, Rendered, Bind, StepAfter;
  }

  lemma NextKeepsHandlers(st: State, a: Action, h: HandlerId)
    requires Inv(st) && h in Next(st, a).handlers
    ensures HandlerInv(Next(st, a), h)
  {
    if a.Advance? && a.handler == h {
      AdvanceKeepsHandler(st, h, a.fault, a.valid, a.newEtag);
    } else {
      NextExtends(st, a);
      OtherHandlers(st, a, h);
      hide Next;
      if h in st.handlers {
        assert HandlerInv(st, h);
        HandlerInvExtends(st, Next(st, a), h);
      }
    }
  }

  lemma OtherHandlers(st: State, a: Action, h: HandlerId)
    requires h in Next(st, a).handlers && !(a.Advance? && a.handler == h)
    ensures h in st.handlers ==> Next(st, a).handlers[h] == st.handlers[h]
    ensures h !in st.handlers ==> Next(st, a).handlers[h].step.CheckRequest?
  {
    hide Projects.Apply, ToValue, PatchDiff, Rendered, Bind, StepAfter;
  }

  lemma NextKeepsInv(st: State, a: Action)
    requires Inv(st)
    ensures Inv(Next(st, a))
  {
    NextKeepsChain(st, a);
    forall h | h in Next(st, a).handlers ensures HandlerInv(Next(st, a), h) { NextKeepsHandlers(st, a, h); }
    forall k: nat | k < |Next(st, a).history| ensures CommitInv(Next(st, a), k) { NextKeepsCommits(st, a, k); }
    forall h | h in Next(st, a).turns ensures TurnInv(Next(st, a), h) { NextKeepsTurns(st, a, h); }
    forall p | p in Next(st, a).proposals ensures ProposalInv(Next(st, a), p) { NextKeepsProposals(st, a, p); }
    hide Next, Chain, HandlerInv, CommitInv, TurnInv, ProposalInv;
  }

  ghost predicate Reachable(st: State) {
    exists owner, projectId, first, actions :: st == Run(Init(owner, projectId, first), actions)
  }

  lemma {:induction false} RunKeepsInv(st: State, actions: seq<Action>)
    requires Inv(st)
    ensures Inv(Run(st, actions))
  {
    if actions != [] {
      RunKeepsInv(st, actions[..|actions| - 1]);
      NextKeepsInv(Run(st, actions[..|actions| - 1]), actions[|actions| - 1]);
    }
  }

  lemma ReachableInv(st: State)
    requires Reachable(st)
    ensures Inv(st)
  {
    var owner, projectId, first, actions :| st == Run(Init(owner, projectId, first), actions);
    assert VersionAt(Init(owner, projectId, first), 0) == first;
    RunKeepsInv(Init(owner, projectId, first), actions);
  }

  // ---- results ----

  /** No lost update: each commit replaced exactly the version its writer had matched, which was
      the newest one, so no two commits ever match the same version. */
  lemma HistoryIsAChain(st: State, j: nat, k: nat)
    requires Reachable(st) && j < k < |st.history|
    ensures st.history[j + 1].base == st.history[j].installed.etag
    ensures st.history[j].base != st.history[k].base
  {
    ReachableInv(st);
    assert st.history[j + 1].base == VersionAt(st, j + 1).etag;
    assert st.history[j].base == VersionAt(st, j).etag && st.history[k].base == VersionAt(st, k).etag;
  }

  /** A proposal is applied at most once, however often its confirmation is replayed. */
  lemma ProposalIsAppliedAtMostOnce(st: State, j: nat, k: nat)
    requires Reachable(st) && j < |st.history| && k < |st.history|
    requires st.history[j].request.ActionRequest? && st.history[k].request.ActionRequest?
    requires st.history[j].request.proposalId == st.history[k].request.proposalId
    ensures j == k
  {
    ReachableInv(st);
    assert CommitInv(st, j) && CommitInv(st, k);
    EtagsIdentifyVersions(st);
    assert st.history[j].base == VersionAt(st, j).etag && st.history[k].base == VersionAt(st, k).etag;
  }

  /** What an action installs was confirmed, and is its patch applied to exactly the version whose ETag the
      proposal was bound to; the confirmed identifier names that ETag and that patch. */
  lemma ActionInstallsThePatchedVersion(st: State, k: nat)
    requires Reachable(st) && k < |st.history| && st.history[k].request.ActionRequest?
    ensures var r := st.history[k].request;
            && r.confirmed
            && r.expectedEtag == VersionAt(st, k).etag
            && r.proposalId == Bind(st, VersionAt(st, k).etag, r.patch)
            && VersionAt(st, k + 1).project == Projects.Apply(r.patch, VersionAt(st, k).project)
  {
    ReachableInv(st);
    assert CommitInv(st, k);
    var r := st.history[k].request;
    var i: nat :| i <= |st.history| && VersionAt(st, i).etag == r.expectedEtag
                  && st.history[k].installed.project == Projects.Apply(r.patch, VersionAt(st, i).project);
    assert st.history[k].base == VersionAt(st, k).etag;
    EtagsIdentifyVersions(st);
  }

  /** A success reply means this handler's commit is in the history with that version. */
  lemma SuccessMeansCommitted(st: State, h: HandlerId, version: Version)
    requires Reachable(st) && h in st.handlers && st.handlers[h].step == Done(Success(version))
    ensures exists k: nat ::
            k < |st.history|
            && st.history[k] == Commit(IfMatch(st.handlers[h].request), version, h, st.handlers[h].request)
  {
    ReachableInv(st);
    assert HandlerInv(st, h);
  }

  /** The step that answers a confirmed action with success saw that very version stored. */
  lemma SuccessSawItsVersion(st: State, a: Action, h: HandlerId, version: Version)
    requires Reachable(st) && h in st.handlers && st.handlers[h].request.ActionRequest? && !st.handlers[h].step.Done?
    requires h in Next(st, a).handlers && Next(st, a).handlers[h].step == Done(Success(version))
    ensures st.current == Some(version) && st.handlers[h].step == Confirm(version.project, version.etag)
  {
    ReachableInv(st);
    assert a.Advance? && a.handler == h;
    assert st.handlers[h].step.Confirm?;
    ConfirmSeesTheCommit(st, h, st.handlers[h].step.expected, st.handlers[h].step.writtenEtag);
  }

  /** The answer to a confirmed action that has written: success exactly when no later write took
      effect before the re-read.  So a 412 may follow a write that did take effect. */
  lemma ConfirmAnswers(st: State, h: HandlerId, fault: bool, valid: bool, newEtag: Etag)
    requires Reachable(st) && h in st.handlers && st.handlers[h].step.Confirm?
    ensures exists k: nat ::
              && k < |st.history| && st.history[k].writer == h && st.history[k].request == st.handlers[h].request
              && AdvanceHandler(st, h, fault, valid, newEtag).handlers[h].step ==
                 Done(if fault || st.current.None? then OtherError
                      else if k + 1 == |st.history| then Success(st.history[k].installed)
                      else PreconditionFailed(Some(st.current.value.etag)))
  {
    ReachableInv(st);
    var expected, etag := st.handlers[h].step.expected, st.handlers[h].step.writtenEtag;
    assert HandlerInv(st, h);
    var k: nat :| k < |st.history|
      && st.history[k] == Commit(IfMatch(st.handlers[h].request), Version(etag, expected), h, st.handlers[h].request);
    assert VersionAt(st, k + 1) == Version(etag, expected);
    EtagsIdentifyVersions(st);
    hide HandlerInv, CommitInv, ProposalInv, TurnInv, ToValue;
  }

  lemma ReachableNext(st: State, a: Action)
    requires Reachable(st)
    ensures Reachable(Next(st, a))
  {
    var owner, projectId, first, actions :| st == Run(Init(owner, projectId, first), actions);
    assert (actions + [a])[..|actions|] == actions;
    assert Next(st, a) == Run(Init(owner, projectId, first), actions + [a]);
  }

  /** What was previewed is what is committed: when a proposal's confirmation commits after the
      proposal was staged, the changes shown to the user are exactly the difference between the
      replaced and the installed version, although the turn read the project twice without a lock. */
  lemma PreviewIsWhatCommits(st: State, p: Proposal, k: nat)
    requires Reachable(st) && p in st.proposals && p.stagedAt <= k < |st.history|
    requires st.history[k].request.ActionRequest? && st.history[k].request.proposalId == p.id
    ensures var before, after := VersionAt(st, k).project, VersionAt(st, k + 1).project;
            && p.changes == Rendered(PatchDiff(before, after, p.id.patch))
            && Replay(Some(ToValue(before)), Parsed(p.changes)) == Some(ToValue(after))
            && Replay(Some(ToValue(after)), Mirror(Parsed(p.changes))) == Some(ToValue(before))
  {
    ReachableInv(st);
    assert ProposalInv(st, p) && CommitInv(st, k);
    ActionInstallsThePatchedVersion(st, k);
    assert st.history[k].request.patch == p.id.patch;
    var i: nat :| i <= p.stagedAt && VersionAt(st, i).etag == p.id.etag;
    EtagsIdentifyVersions(st);
    assert p.stagedAt == k;
    PatchChangesRebuildCandidate(VersionAt(st, k).project, p.id.patch);
  }

  /** The state with one handler at the given step. */
  function At(st: State, h: HandlerId, r: Request, step: Step): State {
    st.(handlers := st.handlers[h := Handler(r, step)])
  }

  lemma Quiet(st: State, h: HandlerId, r: Request, step: Step, newEtag: Etag)
    requires Reachable(At(st, h, r, step)) && !step.Swap?
    ensures Reachable(At(st, h, r, StepAfter(At(st, h, r, step), r, step, false, true, newEtag)))
  {
    var from := At(st, h, r, step);
    ReachableNext(from, Advance(h, false, true, newEtag));
    hide StepAfter, Reachable;
    assert Next(from, Advance(h, false, true, newEtag)) == At(st, h, r, StepAfter(from, r, step, false, true, newEtag));
  }

  /** What a request that matches the stored version sets out to write. */
  function Candidate(r: Request, base: EditableProject): EditableProject {
    if r.ActionRequest? then Projects.Apply(r.patch, base) else r.project
  }

  ghost predicate Admissible(st: State, r: Request) {
    && st.current.Some? && st.current.value.etag == IfMatch(r)
    && (r.ActionRequest? ==> r.confirmed && r.proposalId == Bind(st, r.expectedEtag, r.patch))
  }

  lemma UndisturbedReachesSwap(st: State, h: HandlerId, r: Request)
    requires Reachable(st) && h !in st.handlers && Admissible(st, r)
    ensures Reachable(At(st, h, r, Swap(Candidate(r, st.current.value.project))))
  {
    var candidate := Candidate(r, st.current.value.project);
    ReachableNext(st, StartHandler(h, r));
    assert Next(st, StartHandler(h, r)) == At(st, h, r, CheckRequest);
    hide Reachable, Projects.Apply, Bind;
    Quiet(st, h, r, CheckRequest, 0);
    if r.ActionRequest? {
      Quiet(st, h, r, ReadBase, 0);
    }
    Quiet(st, h, r, Validate(candidate), 0);
    Quiet(st, h, r, ReadAgain(candidate), 0);
  }

  /** An admissible request that nobody disturbs writes its candidate. */
  lemma UndisturbedCommits(st: State, h: HandlerId, r: Request, newEtag: Etag)
    requires Reachable(st) && h !in st.handlers && Admissible(st, r) && newEtag !in st.usedEtags
    ensures var candidate := Candidate(r, st.current.value.project);
            Reachable(At(Install(st, r, candidate, h, newEtag), h, r,
                         if r.ActionRequest? then Confirm(candidate, newEtag)
                           else Done(Success(Version(newEtag, candidate)))))
  {
    UndisturbedReachesSwap(st, h, r);
    var candidate := Candidate(r, st.current.value.project);
    var from := At(st, h, r, Swap(candidate));
    ReachableNext(from, Advance(h, false, true, newEtag));
    hide Reachable, Projects.Apply, Bind, Candidate;
    var step := if r.ActionRequest? then Confirm(candidate, newEtag) else Done(Success(Version(newEtag, candidate)));
    assert StepAfter(from, r, Swap(candidate), false, true, newEtag) == step;
    assert Next(from, Advance(h, false, true, newEtag)) == At(Install(st, r, candidate, h, newEtag), h, r, step);
  }

  /** From every reachable state with a stored project, every confirmed action that matches it and
      every later update of what it installed, there is a run in which the action's write takes
      effect and the action is answered with 412 all the same. */
  lemma CommittedActionMayAnswer412(st: State, h: HandlerId, r: Request, other: HandlerId, project: EditableProject,
                                    first: Etag, second: Etag)
    requires Reachable(st) && r.ActionRequest? && Admissible(st, r)
    requires h !in st.handlers && other !in st.handlers && h != other
    requires first !in st.usedEtags && second !in st.usedEtags && first != second
    ensures exists end: State ::
              && Reachable(end) && h in end.handlers
              && end.handlers[h] == Handler(r, Done(PreconditionFailed(Some(second))))
              && |end.history| == |st.history| + 2 && end.history[|st.history|].writer == h
                && end.history[|st.history|].request == r
  {
    var candidate := Candidate(r, st.current.value.project);
    UndisturbedCommits(st, h, r, first);
    var written := At(Install(st, r, candidate, h, first), h, r, Confirm(candidate, first));
    var update := UpdateRequest(first, project);
    UndisturbedCommits(written, other, update, second);
    var overwritten :=
      At(Install(written, update, project, other, second), other, update, Done(Success(Version(second, project))));
    ReachableNext(overwritten, Advance(h, false, true, 0));
    hide Reachable, Projects.Apply, Bind, Candidate;
    var end := Next(overwritten, Advance(h, false, true, 0));
    assert overwritten.handlers[h] == Handler(r, Confirm(candidate, first));
    assert end.handlers[h] == Handler(r, Done(PreconditionFailed(Some(second))));
  }
}
