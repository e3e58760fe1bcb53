/** Share creation against project deletion: two handlers over two stores with no common lock.

    rust/src/api/project_shares.rs (create) reads the project, inserts the share, reads the project
    again and revokes the share when that read fails.  rust/src/api/projects.rs (delete) revokes
    the shares, purges the launches, deletes the project and revokes the shares again.

    Any number of both handlers run interleaved.  Every repository call is one step that may fail
    without effect, except that revoking all shares of a project is the sequence of steps the Cosmos
    adapter performs: a paged query, then one delete per returned share, stopping at the first
    failure.  A later page may return shares that were added meanwhile, may no longer return shares
    that were removed meanwhile, and may fail.  The in-memory repository is the special case in which
    those steps are consecutive. */
module ShareRace {
  import opened Wrappers

  type ProjectId = nat  // an owner together with a project identifier
  type ShareId = nat
  type HandlerId = nat

  datatype RepositoryError = ProjectNotFound | ProjectsUnavailable

  datatype ShareError = ShareNotFound | SharesUnavailable

  datatype CreateReply =
    | Created(share: ShareId)
    | ReadFailed(readError: RepositoryError)
    | InsertFailed
    | Compensated(rereadError: RepositoryError)             // the share was revoked again
    | CleanupFailed(left: ShareId, cleanupError: ShareError)

  datatype CreatorStep =
    | ReadProject
    | InsertShare
    | RereadProject(inserted: ShareId)
    | RevokeShare(unwanted: ShareId, cause: RepositoryError)
    | CreateDone(createReply: CreateReply)

  datatype DeleteReply =
    | Deleted
    | FirstRevokeFailed
    | PurgeFailed
    | DeleteFailed(deleteError: RepositoryError)
    | SecondRevokeFailed

  /** A revocation is None before its query and then the shares still to delete. */
  datatype DeleterStep =
    | FirstRevoke(firstScan: Option<set<ShareId>>)
    | PurgeLaunches
    | DeleteProject
    | SecondRevoke(secondScan: Option<set<ShareId>>)
    | DeleteDone(deleteReply: DeleteReply)

  datatype Creator = Creator(project: ProjectId, step: CreatorStep)

  datatype Deleter = Deleter(project: ProjectId, step: DeleterStep)

  datatype State = State(
    projects: set<ProjectId>,
    everCreated: set<ProjectId>,
    shares: map<ShareId, ProjectId>,
    everIssued: set<ShareId>,
    creators: map<HandlerId, Creator>,
    deleters: map<HandlerId, Deleter>)

  const INIT: State := State({}, {}, map[], {}, map[], map[])

  /** One step of one handler, or of the world around them.  `fault` makes the call unavailable. */
  datatype Action =
    | NewProject(project: ProjectId)
    | RemoveShare(share: ShareId)  // explicit revocation, or resolution of an expired share
    | StartCreate(handler: HandlerId, project: ProjectId)
    | CreatorReads(handler: HandlerId, fault: bool)
    | CreatorInserts(handler: HandlerId, share: ShareId, fault: bool)
    | CreatorRereads(handler: HandlerId, fault: bool)
    | CreatorRevokes(handler: HandlerId, fault: bool)
    | StartDelete(handler: HandlerId, project: ProjectId)
    | DeleterQueries(handler: HandlerId, fault: bool)
    | DeleterSees(handler: HandlerId, share: ShareId)  // a later page returns one more share
    | DeleterMisses(handler: HandlerId, share: ShareId)  // a later page no longer returns a removed share
    | DeleterLosesPage(handler: HandlerId)  // fetching a later page fails
    | DeleterRemoves(handler: HandlerId, share: ShareId, fault: bool)
    | DeleterFinishesRevoke(handler: HandlerId)
    | DeleterPurges(handler: HandlerId, fault: bool)
    | DeleterDeletes(handler: HandlerId, fault: bool)

  function SharesOf(st: State, p: ProjectId): set<ShareId> {
    set s | s in st.shares && st.shares[s] == p
  }

  function GetProject(st: State, p: ProjectId, fault: bool): Option<RepositoryError> {
    if fault then Some(ProjectsUnavailable) else if p in st.projects then None else Some(ProjectNotFound)
  }

  function SetCreator(st: State, h: HandlerId, step: CreatorStep): State
    requires h in st.creators
  {
    st.(creators := st.creators[h := st.creators[h].(step := step)])
  }

  function SetDeleter(st: State, h: HandlerId, step: DeleterStep): State
    requires h in st.deleters
  {
    st.(deleters := st.deleters[h := st.deleters[h].(step := step)])
  }

  predicate CreatorAt(st: State, h: HandlerId, step: CreatorStep) {
    h in st.creators && st.creators[h].step == step
  }

  function Scan(step: DeleterStep): Option<set<ShareId>> {
    match step
    case FirstRevoke(scan) => scan
    case SecondRevoke(scan) => scan
    case _ => None
  }

  predicate Revoking(step: DeleterStep) {
    step.FirstRevoke? || step.SecondRevoke?
  }

  function WithScan(step: DeleterStep, scan: set<ShareId>): DeleterStep
    requires Revoking(step)
  {
    if step.FirstRevoke? then FirstRevoke(Some(scan)) else SecondRevoke(Some(scan))
  }

  function RevokeFailed(step: DeleterStep): DeleterStep
    requires Revoking(step)
  {
    DeleteDone(if step.FirstRevoke? then FirstRevokeFailed else SecondRevokeFailed)
  }

  function StepCreator(st: State, a: Action): State {
    match a
    case StartCreate(h, p) =>
      if h in st.creators then st else st.(creators := st.creators[h := Creator(p, ReadProject)])
    case CreatorReads(h, fault) =>
      if !CreatorAt(st, h, ReadProject) then st else
        var failure := GetProject(st, st.creators[h].project, fault);
        SetCreator(st, h, if failure.None? then InsertShare else CreateDone(ReadFailed(failure.value)))
    case CreatorInserts(h, s, fault) =>
      if !CreatorAt(st, h, InsertShare) || s in st.everIssued then st
      else if fault then SetCreator(st, h, CreateDone(InsertFailed))
      else SetCreator(st.(shares := st.shares[s := st.creators[h].project], everIssued := st.everIssued + {s}),
                      h, RereadProject(s))
    case CreatorRereads(h, fault) =>
      if h !in st.creators || !st.creators[h].step.RereadProject? then st else
        var s := st.creators[h].step.inserted;
        var failure := GetProject(st, st.creators[h].project, fault);
        SetCreator(st, h, if failure.None? then CreateDone(Created(s)) else RevokeShare(s, failure.value))
    case CreatorRevokes(h, fault) =>
      if h !in st.creators || !st.creators[h].step.RevokeShare? then st else
        var s := st.creators[h].step.unwanted;
        if fault then SetCreator(st, h, CreateDone(CleanupFailed(s, SharesUnavailable)))
        else if s !in st.shares then SetCreator(st, h, CreateDone(CleanupFailed(s, ShareNotFound)))
        else SetCreator(st.(shares := st.shares - {s}), h, CreateDone(Compensated(st.creators[h].step.cause)))
    case _ => st
  }

  function StepDeleter(st: State, a: Action): State {
    match a
    case StartDelete(h, p) =>
      if h in st.deleters then st else st.(deleters := st.deleters[h := Deleter(p, FirstRevoke(None))])
    case DeleterQueries(h, fault) =>
      if h !in st.deleters || !Revoking(st.deleters[h].step) || Scan(st.deleters[h].step).Some? then st else
        var step := st.deleters[h].step;
        SetDeleter(st, h, if fault then RevokeFailed(step) else WithScan(step, SharesOf(st, st.deleters[h].project)))
    case DeleterSees(h, s) =>
      if h !in st.deleters || Scan(st.deleters[h].step).None? || s !in SharesOf(st, st.deleters[h].project) then st else
        var step := st.deleters[h].step;
        SetDeleter(st, h, WithScan(step, Scan(step).value + {s}))
    case DeleterMisses(h, s) =>
      if h !in st.deleters || Scan(st.deleters[h].step).None? || s in st.shares then st else
        var step := st.deleters[h].step;
        SetDeleter(st, h, WithScan(step, Scan(step).value - {s}))
    case DeleterLosesPage(h) =>
      if h !in st.deleters || Scan(st.deleters[h].step).None? then st
      else SetDeleter(st, h, RevokeFailed(st.deleters[h].step))
    case DeleterRemoves(h, s, fault) =>
      if h !in st.deleters || Scan(st.deleters[h].step).None? || s !in Scan(st.deleters[h].step).value then st else
        var step := st.deleters[h].step;
        if fault || s !in st.shares then SetDeleter(st, h, RevokeFailed(step))
        else SetDeleter(st.(shares := st.shares - {s}), h, WithScan(step, Scan(step).value - {s}))
    case DeleterFinishesRevoke(h) =>
      if h !in st.deleters || Scan(st.deleters[h].step) != Some({}) then st
      else SetDeleter(st, h, if st.deleters[h].step.FirstRevoke? then PurgeLaunches else DeleteDone(Deleted))
    case DeleterPurges(h, fault) =>
      if h !in st.deleters || !st.deleters[h].step.PurgeLaunches? then st
      else SetDeleter(st, h, if fault then DeleteDone(PurgeFailed) else DeleteProject)
    case DeleterDeletes(h, fault) =>
      if h !in st.deleters || !st.deleters[h].step.DeleteProject? then st else
        var p := st.deleters[h].project;
        var failure := GetProject(st, p, fault);
        if failure.Some? then SetDeleter(st, h, DeleteDone(DeleteFailed(failure.value)))
        else SetDeleter(st.(projects := st.projects - {p}), h, SecondRevoke(None))
    case _ => st
  }

  /** An action that is not enabled leaves the state alone, so every action sequence is a run. */
  function Step(st: State, a: Action): State {
    match a
    case NewProject(p) =>
      if p in st.everCreated then st
      else st.(projects := st.projects + {p}, everCreated := st.everCreated + {p})
    case RemoveShare(s) => st.(shares := st.shares - {s})
    case _ => StepDeleter(StepCreator(st, a), a)
  }

  function Run(st: State, actions: seq<Action>): State {
    if actions == [] then st
    else Step(Run(st, actions[..|actions| - 1]), actions[|actions| - 1])
  }

  // ---- the invariant ----

  /** The share a creator has inserted, whatever became of it. */
  function Issued(step: CreatorStep): Option<ShareId> {
    match step
    case RereadProject(s) => Some(s)
    case RevokeShare(s, _) => Some(s)
    case CreateDone(Created(s)) => Some(s)
    case CreateDone(CleanupFailed(s, _)) => Some(s)
    case _ => None
  }

  ghost predicate Consistent(st: State) {
    && st.projects <= st.everCreated
    && (forall s | s in st.shares :: s in st.everIssued && st.shares[s] in st.everCreated)
    && (forall h | h in st.creators && !st.creators[h].step.ReadProject? && !st.creators[h].step.CreateDone? ::
          st.creators[h].project in st.everCreated)
    && (forall h | h in st.creators && Issued(st.creators[h].step).Some? ::
          var s := Issued(st.creators[h].step).value;
          s in st.everIssued && (s in st.shares ==> st.shares[s] == st.creators[h].project))
    && (forall h, s | h in st.deleters && Scan(st.deleters[h].step).Some? && s in Scan(st.deleters[h].step).value ::
          s in st.everIssued && (s in st.shares ==> st.shares[s] == st.deleters[h].project))
  }

  /** Each share was inserted by one creator. */
  ghost predicate OneCreatorPerShare(st: State) {
    forall h, k | h in st.creators && k in st.creators && Issued(st.creators[h].step).Some?
                  && Issued(st.creators[h].step) == Issued(st.creators[k].step) :: h == k
  }

  /** Each project is deleted by one deleter, for good. */
  ghost predicate OneDeleterPerProject(st: State) {
    && (forall h | h in st.deleters && PastDelete(st.deleters[h].step) ::
          st.deleters[h].project in st.everCreated - st.projects)
    && (forall h, k | h in st.deleters && k in st.deleters && PastDelete(st.deleters[h].step)
                      && PastDelete(st.deleters[k].step) && st.deleters[h].project == st.deleters[k].project :: h == k)
  }

  ghost predicate Unique(st: State) {
    OneCreatorPerShare(st) && OneDeleterPerProject(st)
  }

  predicate PastDelete(step: DeleterStep) {
    step.SecondRevoke? || step == DeleteDone(Deleted) || step == DeleteDone(SecondRevokeFailed)
  }

  ghost predicate CreatorOwes(st: State, h: HandlerId, s: ShareId) {
    && h in st.creators
    && (st.creators[h].step == RereadProject(s)
        || (st.creators[h].step.RevokeShare? && st.creators[h].step.unwanted == s))
  }

  ghost predicate CreatorFailed(st: State, h: HandlerId, s: ShareId) {
    && h in st.creators
    && st.creators[h].step.CreateDone?
    && st.creators[h].step.createReply.CleanupFailed?
    && st.creators[h].step.createReply.left == s
  }

  ghost predicate DeleterOwes(st: State, h: HandlerId, p: ProjectId, s: ShareId) {
    && h in st.deleters
    && st.deleters[h].project == p
    && st.deleters[h].step.SecondRevoke?
    && (st.deleters[h].step.secondScan.Some? ==> s in st.deleters[h].step.secondScan.value)
  }

  ghost predicate DeleterFailed(st: State, h: HandlerId, p: ProjectId) {
    h in st.deleters && st.deleters[h] == Deleter(p, DeleteDone(SecondRevokeFailed))
  }

  ghost predicate CreatorCovers(st: State, h: HandlerId, s: ShareId) {
    CreatorOwes(st, h, s) || CreatorFailed(st, h, s)
  }

  ghost predicate DeleterCovers(st: State, h: HandlerId, p: ProjectId, s: ShareId) {
    DeleterOwes(st, h, p, s) || DeleterFailed(st, h, p)
  }

  /** Some handler still owes the removal of the share, or failed at it. */
  ghost predicate Covered(st: State, p: ProjectId, s: ShareId) {
    (exists h :: CreatorCovers(st, h, s)) || (exists h :: DeleterCovers(st, h, p, s))
  }

  ghost predicate Orphan(st: State, s: ShareId) {
    s in st.shares && st.shares[s] !in st.projects
  }

  ghost predicate Inv(st: State) {
    Consistent(st) && Unique(st) && forall s | Orphan(st, s) :: Covered(st, st.shares[s], s)
  }

  lemma CreatorStepKeeps(st: State, a: Action)
    requires Consistent(st) && Unique(st)
    ensures Consistent(StepCreator(st, a)) && Unique(StepCreator(st, a))
  {
    CreatorStepConsistent(st, a);
    InsertionKeepsUnique(st, a);
  }

  lemma InsertionKeepsUnique(st: State, a: Action)
    requires Consistent(st) && Unique(st)
    ensures Unique(StepCreator(st, a))
  {
    var next := StepCreator(st, a);
    assert next.deleters == st.deleters && next.projects == st.projects && next.everCreated == st.everCreated;
    if !a.CreatorInserts? {
      forall h | h in next.creators && Issued(next.creators[h].step).Some?
        ensures h in st.creators && Issued(st.creators[h].step) == Issued(next.creators[h].step)
      {
      }
    }
  }

  lemma CreatorStepConsistent(st: State, a: Action)
    requires Consistent(st)
    ensures Consistent(StepCreator(st, a))
  {
  }

  lemma DeleterStepKeeps(st: State, a: Action)
    requires Consistent(st) && Unique(st)
    ensures Consistent(StepDeleter(st, a)) && Unique(StepDeleter(st, a))
  {
    DeleterStepConsistent(st, a);
    var next := StepDeleter(st, a);
    if a.DeleterDeletes? {
      DeletionKeepsUnique(st, a);
    } else {
      assert next.projects == st.projects && next.everCreated == st.everCreated && next.creators == st.creators;
      forall h | h in next.deleters && PastDelete(next.deleters[h].step)
        ensures h in st.deleters && PastDelete(st.deleters[h].step)
                && next.deleters[h].project == st.deleters[h].project
      {
      }
    }
  }

  /** A project is there to be deleted only while nobody is past its deletion. */
  lemma DeletionKeepsUnique(st: State, a: Action)
    requires Consistent(st) && Unique(st) && a.DeleterDeletes?
    ensures Unique(StepDeleter(st, a))
  {
    var next := StepDeleter(st, a);
    forall h | h in next.deleters && h != a.handler
      ensures h in st.deleters && next.deleters[h] == st.deleters[h]
    {
    }
  }

  lemma DeleterStepConsistent(st: State, a: Action)
    requires Consistent(st)
    ensures Consistent(StepDeleter(st, a))
  {
  }

  lemma StepKeeps(st: State, a: Action)
    requires Consistent(st) && Unique(st)
    ensures Consistent(Step(st, a)) && Unique(Step(st, a))
  {
    CreatorStepKeeps(st, a);
    DeleterStepKeeps(StepCreator(st, a), a);
  }

  /** A creator gives up a share it covers only by removing it, or when its project exists. */
  lemma CreatorKeepsOwnCover(st: State, a: Action, h: HandlerId, s: ShareId)
    requires Consistent(st) && CreatorCovers(st, h, s) && s in st.shares && Orphan(StepCreator(st, a), s)
    ensures CreatorCovers(StepCreator(st, a), h, s)
  {
  }

  lemma CreatorKeepsDeleterCover(st: State, a: Action, h: HandlerId, p: ProjectId, s: ShareId)
    requires DeleterCovers(st, h, p, s)
    ensures DeleterCovers(StepCreator(st, a), h, p, s)
  {
  }

  lemma CreatorKeepsOthers(st: State, a: Action, s: ShareId)
    requires Consistent(st) && Orphan(StepCreator(st, a), s)
    ensures if s in st.shares then Orphan(st, s) && StepCreator(st, a).shares[s] == st.shares[s]
            else a.CreatorInserts? && CreatorCovers(StepCreator(st, a), a.handler, s)
  {
  }

  /** A creator's step never uncovers a share. */
  lemma CreatorStepCovers(st: State, a: Action, s: ShareId)
    requires Inv(st) && Orphan(StepCreator(st, a), s)
    ensures Covered(StepCreator(st, a), StepCreator(st, a).shares[s], s)
  {
    CreatorKeepsOthers(st, a, s);
    hide StepCreator, CreatorCovers, DeleterCovers, Consistent, Unique;
    if s in st.shares {
      if h :| CreatorCovers(st, h, s) {
        CreatorKeepsOwnCover(st, a, h, s);
      } else {
        var h :| DeleterCovers(st, h, st.shares[s], s);
        CreatorKeepsDeleterCover(st, a, h, st.shares[s], s);
      }
    }
  }

  lemma DeleterKeepsCreatorCover(st: State, a: Action, h: HandlerId, s: ShareId)
    requires CreatorCovers(st, h, s)
    ensures CreatorCovers(StepDeleter(st, a), h, s)
  {
  }

  /** A deleter gives up a share it covers only by removing it, or by failing. */
  lemma DeleterKeepsOwnCover(st: State, a: Action, h: HandlerId, p: ProjectId, s: ShareId)
    requires DeleterCovers(st, h, p, s) && Orphan(StepDeleter(st, a), s)
    requires s in st.shares && st.shares[s] == p
    ensures DeleterCovers(StepDeleter(st, a), h, p, s)
  {
  }

  lemma DeleterOrphans(st: State, a: Action, s: ShareId)
    requires Orphan(StepDeleter(st, a), s)
    ensures s in st.shares && StepDeleter(st, a).shares[s] == st.shares[s]
    ensures !Orphan(st, s) ==> a.DeleterDeletes? && DeleterCovers(StepDeleter(st, a), a.handler, st.shares[s], s)
  {
  }

  /** A deleter's step never uncovers a share. */
  lemma DeleterStepCovers(st: State, a: Action, s: ShareId)
    requires Inv(st) && Orphan(StepDeleter(st, a), s)
    ensures Covered(StepDeleter(st, a), StepDeleter(st, a).shares[s], s)
  {
    DeleterOrphans(st, a, s);
    hide StepDeleter, CreatorCovers, DeleterCovers, Consistent, Unique;
    if Orphan(st, s) {
      if h :| CreatorCovers(st, h, s) {
        DeleterKeepsCreatorCover(st, a, h, s);
      } else {
        var h :| DeleterCovers(st, h, st.shares[s], s);
        DeleterKeepsOwnCover(st, a, h, st.shares[s], s);
      }
    }
  }

  lemma InvStep(st: State, a: Action)
    requires Inv(st)
    ensures Inv(Step(st, a))
  {
    StepKeeps(st, a);
    var next := Step(st, a);
    forall s | Orphan(next, s)
      ensures Covered(next, next.shares[s], s)
    {
      if a.NewProject? || a.RemoveShare? {
        assert Orphan(st, s);
        if h :| CreatorCovers(st, h, s) {
          assert CreatorCovers(next, h, s);
        } else {
          var h :| DeleterCovers(st, h, st.shares[s], s);
          assert DeleterCovers(next, h, next.shares[s], s);
        }
      } else if StepCreator(st, a) == st {
        DeleterStepCovers(st, a, s);
      } else {
        assert StepDeleter(StepCreator(st, a), a) == StepCreator(st, a);
        CreatorStepCovers(st, a, s);
      }
    }
  }

  /** In every reachable state each share of a project that no longer exists is covered. */
  lemma {:induction false} InvHolds(actions: seq<Action>)
    ensures Inv(Run(INIT, actions))
  {
    if actions != [] {
      InvHolds(actions[..|actions| - 1]);
      InvStep(Run(INIT, actions[..|actions| - 1]), actions[|actions| - 1]);
    }
  }

  ghost predicate Finished(st: State) {
    && (forall h | h in st.creators :: st.creators[h].step.CreateDone?)
    && (forall h | h in st.deleters :: st.deleters[h].step.DeleteDone?)
  }

  /** Once all requests have finished, each share of a deleted project belongs to a request that was
      answered with the error of a cleanup revocation. */
  lemma LeftoversAreAnswered(actions: seq<Action>, s: ShareId)
    requires var end := Run(INIT, actions); Finished(end) && s in end.shares && end.shares[s] !in end.projects
    ensures var end := Run(INIT, actions);
            && end.shares[s] in end.everCreated
            && ((exists h :: CreatorFailed(end, h, s)) || (exists h :: DeleterFailed(end, h, end.shares[s])))
  {
    InvHolds(actions);
    var end := Run(INIT, actions);
    assert Covered(end, end.shares[s], s);
    if h :| CreatorCovers(end, h, s) {
      assert CreatorFailed(end, h, s);
    } else {
      var h :| DeleterCovers(end, h, end.shares[s], s);
      assert DeleterFailed(end, h, end.shares[s]);
    }
  }

  /** From the moment a deletion is answered with success, a remaining share of that project is in
      the hands of its own creator: still to be re-read and revoked, or a failed cleanup. */
  lemma AfterDeletionOnlyCreatorsOwe(actions: seq<Action>, h: HandlerId, s: ShareId)
    requires var now := Run(INIT, actions);
             && h in now.deleters && now.deleters[h].step == DeleteDone(Deleted)
             && s in now.shares && now.shares[s] == now.deleters[h].project
    ensures exists k :: CreatorCovers(Run(INIT, actions), k, s)
  {
    InvHolds(actions);
    var now := Run(INIT, actions);
    assert Orphan(now, s);
    forall k
      ensures !DeleterCovers(now, k, now.shares[s], s)
    {
    }
  }

  // ---- nothing else is removed ----

  ghost predicate Undisturbed(actions: seq<Action>, p: ProjectId, s: ShareId) {
    forall a | a in actions :: !(a.StartDelete? && a.project == p) && a != RemoveShare(s)
  }

  /** While nobody asked to delete its project, a share stands from its insertion, unless its
      creator decided to revoke it. */
  ghost predicate Standing(st: State, p: ProjectId, s: ShareId) {
    && (forall h | h in st.deleters :: st.deleters[h].project != p)
    && (forall h | h in st.creators && st.creators[h].project == p
                   && (st.creators[h].step == RereadProject(s) || st.creators[h].step == CreateDone(Created(s))) ::
          s in st.shares)
  }

  lemma StandingStep(st: State, a: Action, p: ProjectId, s: ShareId)
    requires Consistent(st) && Unique(st) && Standing(st, p, s)
    requires !(a.StartDelete? && a.project == p) && a != RemoveShare(s)
    ensures Standing(Step(st, a), p, s)
  {
    CreatorKeepsStanding(st, a, p, s);
    CreatorStepKeeps(st, a);
    DeleterKeepsStanding(StepCreator(st, a), a, p, s);
  }

  lemma CreatorKeepsStanding(st: State, a: Action, p: ProjectId, s: ShareId)
    requires Consistent(st) && Unique(st) && Standing(st, p, s)
    ensures Standing(StepCreator(st, a), p, s)
  {
    var next := StepCreator(st, a);
    assert next.deleters == st.deleters;
    forall h | h in next.creators && next.creators[h].project == p
               && (next.creators[h].step == RereadProject(s) || next.creators[h].step == CreateDone(Created(s)))
      ensures s in next.shares
    {
      if h in st.creators && Issued(st.creators[h].step) == Some(s) {
        assert s in st.shares;
      }
    }
  }

  lemma DeleterKeepsStanding(st: State, a: Action, p: ProjectId, s: ShareId)
    requires Consistent(st) && Standing(st, p, s)
    requires !(a.StartDelete? && a.project == p)
    ensures Standing(StepDeleter(st, a), p, s)
  {
    var next := StepDeleter(st, a);
    assert next.creators == st.creators;
    forall h | h in next.creators && next.creators[h].project == p
               && (next.creators[h].step == RereadProject(s) || next.creators[h].step == CreateDone(Created(s)))
      ensures s in next.shares
    {
      assert s in st.shares && st.shares[s] == p;
    }
  }

  lemma {:induction false} StandingHolds(actions: seq<Action>, p: ProjectId, s: ShareId)
    requires Undisturbed(actions, p, s)
    ensures Standing(Run(INIT, actions), p, s)
  {
    if actions != [] {
      var before := actions[..|actions| - 1];
      StandingHolds(before, p, s);
      InvHolds(before);
      assert actions[|actions| - 1] in actions;
      StandingStep(Run(INIT, before), actions[|actions| - 1], p, s);
    }
  }

  /** A share that was handed out is not lost: without a deletion request for its project and
      without its own revocation or expiry it is still stored, whatever else ran and failed. */
  lemma HandedOutSharesPersist(actions: seq<Action>, h: HandlerId, s: ShareId)
    requires var end := Run(INIT, actions);
             && h in end.creators && end.creators[h].step == CreateDone(Created(s))
             && Undisturbed(actions, end.creators[h].project, s)
    ensures s in Run(INIT, actions).shares
  {
    StandingHolds(actions, Run(INIT, actions).creators[h].project, s);
  }

  /** The exception is needed: a share inserted between the two revocations survives when the second
      one is unavailable, and both requests are answered, one of them with that error. */
  lemma FailedCleanupLeavesAShare()
    ensures var end := Run(INIT, FailedCleanup());
            && Finished(end) && Orphan(end, 7) && DeleterFailed(end, 2, 5)
            && 1 in end.creators && end.creators[1].step == CreateDone(Created(7))
  {
    FailedCleanupUntilDelete();
    var run := FailedCleanup();
    assert run[..11] == run;
    hide Run;
    var answered := map[1 := Creator(5, CreateDone(Created(7)))];
    RunsTo(run, 11, State({}, {5}, map[7 := 5], {7}, answered, map[2 := Deleter(5, DeleteDone(SecondRevokeFailed))]));
  }

  lemma FailedCleanupUntilDelete()
    ensures Run(INIT, FailedCleanup()[..10])
            == State({}, {5}, map[7 := 5], {7}, map[1 := Creator(5, CreateDone(Created(7)))],
              map[2 := Deleter(5, SecondRevoke(None))])
  {
    hide Run;
    var run, shares, answered := FailedCleanup(), map[7 := 5], map[1 := Creator(5, CreateDone(Created(7)))];
    FailedCleanupUntilAnswer();
    RunsTo(run, 9, State({5}, {5}, shares, {7}, answered, map[2 := Deleter(5, DeleteProject)]));
    RunsTo(run, 10, State({}, {5}, shares, {7}, answered, map[2 := Deleter(5, SecondRevoke(None))]));
  }

  lemma FailedCleanupUntilAnswer()
    ensures Run(INIT, FailedCleanup()[..8])
            == State({5}, {5}, map[7 := 5], {7}, map[1 := Creator(5, CreateDone(Created(7)))],
              map[2 := Deleter(5, PurgeLaunches)])
  {
    hide Run;
    var run, deleting, shares := FailedCleanup(), map[2 := Deleter(5, PurgeLaunches)], map[7 := 5];
    FailedCleanupUntilPurge();
    RunsTo(run, 6, State({5}, {5}, map[], {}, map[1 := Creator(5, InsertShare)], deleting));
    RunsTo(run, 7, State({5}, {5}, shares, {7}, map[1 := Creator(5, RereadProject(7))], deleting));
    RunsTo(run, 8, State({5}, {5}, shares, {7}, map[1 := Creator(5, CreateDone(Created(7)))], deleting));
  }

  lemma FailedCleanupUntilPurge()
    ensures Run(INIT, FailedCleanup()[..5])
            == State({5}, {5}, map[], {}, map[1 := Creator(5, ReadProject)], map[2 := Deleter(5, PurgeLaunches)])
  {
    hide Run;
    var run, reading := FailedCleanup(), map[1 := Creator(5, ReadProject)];
    FailedCleanupStarts();
    var started := State({5}, {5}, map[], {}, reading, map[2 := Deleter(5, FirstRevoke(None))]);
    assert SharesOf(started, 5) == {};
    RunsTo(run, 4, started.(deleters := map[2 := Deleter(5, FirstRevoke(Some({})))]));
    RunsTo(run, 5, started.(deleters := map[2 := Deleter(5, PurgeLaunches)]));
  }

  lemma FailedCleanupStarts()
    ensures Run(INIT, FailedCleanup()[..3])
            == State({5}, {5}, map[], {}, map[1 := Creator(5, ReadProject)], map[2 := Deleter(5, FirstRevoke(None))])
  {
    var run, reading := FailedCleanup(), map[1 := Creator(5, ReadProject)];
    assert Run(INIT, []) == INIT;
    hide Run;
    RunsTo(run, 0, INIT);
    RunsTo(run, 1, State({5}, {5}, map[], {}, map[], map[]));
    RunsTo(run, 2, State({5}, {5}, map[], {}, reading, map[]));
    RunsTo(run, 3, State({5}, {5}, map[], {}, reading, map[2 := Deleter(5, FirstRevoke(None))]));
  }

  function FailedCleanup(): seq<Action> {
    [NewProject(5), StartCreate(1, 5), StartDelete(2, 5), DeleterQueries(2, false), DeleterFinishesRevoke(2),
     CreatorReads(1, false), CreatorInserts(1, 7, false), CreatorRereads(1, false), DeleterPurges(2, false),
     DeleterDeletes(2, false), DeleterQueries(2, true)]
  }

  /** The state after a prefix of a run, from the state one action earlier. */
  lemma RunsTo(actions: seq<Action>, n: nat, st: State)
    requires n <= |actions|
    requires n == 0 ==> st == INIT
    requires n > 0 ==> Step(Run(INIT, actions[..n - 1]), actions[n - 1]) == st
    ensures Run(INIT, actions[..n]) == st
  {
    if n > 0 {
      assert actions[..n][..n - 1] == actions[..n - 1];
    }
  }
}
