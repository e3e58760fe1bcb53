/** What the replies of ShareRace mean: each names the call that failed, or says that none did, and a
    request that nobody disturbs succeeds. */
module ShareReplies {
  import opened Wrappers
  import opened ShareRace

  // ---- deletion ----

  /** The query, a later page or one of the deletions of a revocation fails; a share that is gone by the
      time of its deletion counts as a failure. */
  predicate RevocationFails(st: State, h: HandlerId, scan: Option<set<ShareId>>, a: Action) {
    match scan
    case None => a == DeleterQueries(h, true)
    case Some(found) =>
      || a == DeleterLosesPage(h)
      || (a.DeleterRemoves? && a.handler == h && a.share in found && (a.fault || a.share !in st.shares))
  }

  /** This action makes the deletion answer, and with this reply. */
  predicate DeletionEnds(st: State, h: HandlerId, a: Action, reply: DeleteReply) {
    && h in st.deleters
    && var Deleter(p, step) := st.deleters[h];
    match reply
    case FirstRevokeFailed => step.FirstRevoke? && RevocationFails(st, h, step.firstScan, a)
    case PurgeFailed => step == PurgeLaunches && a == DeleterPurges(h, true)
    case DeleteFailed(ProjectsUnavailable) => step == DeleteProject && a == DeleterDeletes(h, true)
    case DeleteFailed(ProjectNotFound) =>
      step == DeleteProject && a == DeleterDeletes(h, false) && p !in st.projects
    case SecondRevokeFailed => step.SecondRevoke? && RevocationFails(st, h, step.secondScan, a)
    case Deleted => step == SecondRevoke(Some({})) && a == DeleterFinishesRevoke(h)
  }

  predicate DeletionAnswered(st: State, h: HandlerId, reply: DeleteReply) {
    h in st.deleters && st.deleters[h].step == DeleteDone(reply)
  }

  lemma DeletionStepAnswers(st: State, h: HandlerId, a: Action, reply: DeleteReply)
    ensures DeletionAnswered(Step(st, a), h, reply) <==>
              DeletionAnswered(st, h, reply) || DeletionEnds(st, h, a, reply)
  {
    DeletersAfter(st, a);
    hide Step, StepDeleter, DeletionEnds;
    if DeletionEnds(st, h, a, reply) {
      EndedDeletionIsAnswered(st, h, a, reply);
    }
    AnsweredDeletionEnded(st, h, a, reply);
  }

  lemma EndedDeletionIsAnswered(st: State, h: HandlerId, a: Action, reply: DeleteReply)
    requires DeletionEnds(st, h, a, reply)
    ensures DeletionAnswered(StepDeleter(st, a), h, reply)
  {
  }

  lemma AnsweredDeletionEnded(st: State, h: HandlerId, a: Action, reply: DeleteReply)
    ensures DeletionAnswered(st, h, reply) ==> DeletionAnswered(StepDeleter(st, a), h, reply)
    ensures DeletionAnswered(StepDeleter(st, a), h, reply) ==>
              DeletionAnswered(st, h, reply) || DeletionEnds(st, h, a, reply)
  {
  }

  lemma DeletersAfter(st: State, a: Action)
    ensures Step(st, a).deleters == StepDeleter(st, a).deleters
  {
    CreatorLeavesDeleters(st, a);
    if StepCreator(st, a) != st {
      CreatorMoves(st, a);
    }
  }

  lemma CreatorMoves(st: State, a: Action)
    requires StepCreator(st, a) != st
    ensures StepDeleter(st, a) == st && StepDeleter(StepCreator(st, a), a) == StepCreator(st, a)
  {
  }

  lemma CreatorLeavesDeleters(st: State, a: Action)
    ensures StepCreator(st, a).deleters == st.deleters && StepCreator(st, a).projects == st.projects
  {
  }

  /** Some action of the run made the deletion answer with this reply. */
  ghost predicate DeletionEnded(actions: seq<Action>, h: HandlerId, reply: DeleteReply) {
    exists i: nat :: i < |actions| && DeletionEnds(Run(INIT, actions[..i]), h, actions[i], reply)
  }

  lemma DeletionEndedOneMore(actions: seq<Action>, h: HandlerId, reply: DeleteReply)
    requires actions != []
    ensures var n := |actions| - 1;
            DeletionEnded(actions, h, reply) <==>
              DeletionEnded(actions[..n], h, reply) || DeletionEnds(Run(INIT, actions[..n]), h, actions[n], reply)
  {
    hide Run, DeletionEnds;
    var n := |actions| - 1;
    forall i: nat | i < n
      ensures actions[..n][..i] == actions[..i] && actions[..n][i] == actions[i]
    {
    }
    if DeletionEnded(actions[..n], h, reply) {
      var i: nat :| i < n && DeletionEnds(Run(INIT, actions[..n][..i]), h, actions[..n][i], reply);
      assert DeletionEnds(Run(INIT, actions[..i]), h, actions[i], reply);
    }
    if DeletionEnded(actions, h, reply) {
      var i: nat :| i <= n && DeletionEnds(Run(INIT, actions[..i]), h, actions[i], reply);
      assert i < n ==> DeletionEnds(Run(INIT, actions[..n][..i]), h, actions[..n][i], reply);
    }
  }

  /** A deletion has been answered with a reply exactly when one of its own calls came out as that reply
      says, at the step that made it. */
  lemma {:induction false} DeletionAnswersExactly(actions: seq<Action>, h: HandlerId, reply: DeleteReply)
    ensures DeletionAnswered(Run(INIT, actions), h, reply) <==> DeletionEnded(actions, h, reply)
  {
    hide Step, DeletionEnds;
    if actions != [] {
      var n := |actions| - 1;
      DeletionAnswersExactly(actions[..n], h, reply);
      hide DeletionEnded, DeletionAnswered;
      DeletionEndedOneMore(actions, h, reply);
      DeletionStepAnswers(Run(INIT, actions[..n]), h, actions[n], reply);
    }
  }

  /** A finished deletion was answered with success exactly when none of its own calls failed. */
  lemma DeletionSucceedsWithItsCalls(actions: seq<Action>, h: HandlerId)
    requires h in Run(INIT, actions).deleters && Run(INIT, actions).deleters[h].step.DeleteDone?
    ensures DeletionAnswered(Run(INIT, actions), h, Deleted) <==>
              forall failure | DeletionEnded(actions, h, failure) :: failure == Deleted
  {
    hide Run, DeletionEnded;
    var reply := Run(INIT, actions).deleters[h].step.deleteReply;
    DeletionAnswersExactly(actions, h, reply);
    forall failure | DeletionEnded(actions, h, failure)
      ensures failure == reply
    {
      DeletionAnswersExactly(actions, h, failure);
    }
  }

  // ---- what a deletion leaves ----

  /** A request to delete the project was made with this handler. */
  ghost predicate Asked(actions: seq<Action>, h: HandlerId, p: ProjectId) {
    StartDelete(h, p) in actions
  }

  /** A project that is gone has a deletion past its project. */
  ghost predicate GoneIsDeleted(st: State) {
    forall p | p in st.everCreated && p !in st.projects ::
      exists h :: h in st.deleters && st.deleters[h].project == p && PastDelete(st.deleters[h].step)
  }

  lemma StepKeepsGoneIsDeleted(st: State, a: Action)
    requires GoneIsDeleted(st)
    ensures GoneIsDeleted(Step(st, a))
  {
    var next := Step(st, a);
    forall p | p in next.everCreated && p !in next.projects
      ensures exists h :: h in next.deleters && next.deleters[h].project == p && PastDelete(next.deleters[h].step)
    {
      if p in st.projects {
        assert PastDelete(next.deleters[a.handler].step);
      } else {
        var h :| h in st.deleters && st.deleters[h].project == p && PastDelete(st.deleters[h].step);
        DeletersStay(st, a, h);
      }
    }
  }

  lemma DeletersStay(st: State, a: Action, h: HandlerId)
    requires h in st.deleters
    ensures h in Step(st, a).deleters && Step(st, a).deleters[h].project == st.deleters[h].project
    ensures PastDelete(st.deleters[h].step) ==> PastDelete(Step(st, a).deleters[h].step)
  {
    CreatorLeavesDeleters(st, a);
  }

  lemma NewDeletersAsked(st: State, a: Action, h: HandlerId)
    requires h in Step(st, a).deleters && h !in st.deleters
    ensures a == StartDelete(h, Step(st, a).deleters[h].project)
  {
    CreatorLeavesDeleters(st, a);
  }

  lemma {:induction false} DeletersAsked(actions: seq<Action>)
    ensures GoneIsDeleted(Run(INIT, actions))
    ensures forall h | h in Run(INIT, actions).deleters :: Asked(actions, h, Run(INIT, actions).deleters[h].project)
  {
    hide Step;
    if actions != [] {
      var n := |actions| - 1;
      var before := Run(INIT, actions[..n]);
      DeletersAsked(actions[..n]);
      StepKeepsGoneIsDeleted(before, actions[n]);
      hide Run, GoneIsDeleted;
      forall h | h in Step(before, actions[n]).deleters
        ensures Asked(actions, h, Step(before, actions[n]).deleters[h].project)
      {
        if h in before.deleters {
          DeletersStay(before, actions[n], h);
        } else {
          NewDeletersAsked(before, actions[n], h);
        }
      }
    }
  }

  /** A deletion that failed before its project was deleted leaves the project stored, as long as nobody
      else asked to delete it. */
  lemma EarlyFailureKeepsProject(actions: seq<Action>, h: HandlerId)
    requires var end := Run(INIT, actions);
             && h in end.deleters && end.deleters[h].project in end.everCreated
             && (forall k | k != h :: !Asked(actions, k, end.deleters[h].project))
    requires var end := Run(INIT, actions);
             || DeletionAnswered(end, h, FirstRevokeFailed)
             || DeletionAnswered(end, h, PurgeFailed)
             || DeletionAnswered(end, h, DeleteFailed(ProjectsUnavailable))
    ensures var end := Run(INIT, actions); end.deleters[h].project in end.projects
  {
    hide Run;
    DeletersAsked(actions);
  }

  /** And one that was answered with success, or failed afterwards, has deleted it. */
  lemma LateAnswerMeansDeleted(actions: seq<Action>, h: HandlerId)
    requires var end := Run(INIT, actions);
             DeletionAnswered(end, h, Deleted) || DeletionAnswered(end, h, SecondRevokeFailed)
    ensures var end := Run(INIT, actions); end.deleters[h].project in end.everCreated - end.projects
  {
    InvHolds(actions);
    hide Run;
  }

  // ---- an undisturbed deletion ----

  lemma {:induction false} RunAppends(st: State, first: seq<Action>, later: seq<Action>)
    ensures Run(st, first + later) == Run(Run(st, first), later)
  {
    if later == [] {
      assert first + later == first;
    } else {
      var n := |later| - 1;
      assert (first + later)[..|first| + n] == first + later[..n];
      RunAppends(st, first, later[..n]);
    }
  }

  lemma RunOne(st: State, a: Action)
    ensures Run(st, [a]) == Step(st, a)
  {
    assert [a][..0] == [];
  }

  /** A step of this deletion in which no call is unavailable. */
  predicate OwnDeletion(h: HandlerId, p: ProjectId, a: Action) {
    || a == StartDelete(h, p)
    || a == DeleterQueries(h, false)
    || (a.DeleterRemoves? && a.handler == h && !a.fault)
    || a == DeleterFinishesRevoke(h)
    || a == DeleterPurges(h, false)
    || a == DeleterDeletes(h, false)
  }

  ghost predicate AllOwn(h: HandlerId, p: ProjectId, actions: seq<Action>) {
    forall a | a in actions :: OwnDeletion(h, p, a)
  }

  /** One more own step. */
  lemma Extend(st: State, h: HandlerId, p: ProjectId, actions: seq<Action>, a: Action, next: State)
    requires AllOwn(h, p, actions) && OwnDeletion(h, p, a) && Step(Run(st, actions), a) == next
    ensures AllOwn(h, p, actions + [a]) && Run(st, actions + [a]) == next
  {
    hide Step, OwnDeletion;
    assert (actions + [a])[..|actions|] == actions;
  }

  function DeleterAt(st: State, h: HandlerId, p: ProjectId, step: DeleterStep): State {
    st.(deleters := st.deleters[h := Deleter(p, step)])
  }

  /** Removing the shares that were found, one after the other. */
  lemma {:induction false} RemovesAll(st: State, h: HandlerId, p: ProjectId, step: DeleterStep, found: set<ShareId>)
    returns (actions: seq<Action>)
    requires Revoking(step) && found <= st.shares.Keys
    ensures AllOwn(h, p, actions)
    ensures Run(DeleterAt(st, h, p, WithScan(step, found)), actions)
            == DeleterAt(st.(shares := st.shares - found), h, p, WithScan(step, {}))
    decreases |found|
  {
    actions := [];
    if found == {} {
      assert st.shares - {} == st.shares;
    } else {
      var s :| s in found;
      var next := st.(shares := st.shares - {s});
      RemovesOne(st, h, p, step, found, s);
      var later := RemovesAll(next, h, p, step, found - {s});
      assert next.shares - (found - {s}) == st.shares - found;
      actions := [DeleterRemoves(h, s, false)] + later;
      hide Step, WithScan;
      RunOne(DeleterAt(st, h, p, WithScan(step, found)), DeleterRemoves(h, s, false));
      RunAppends(DeleterAt(st, h, p, WithScan(step, found)), [DeleterRemoves(h, s, false)], later);
    }
  }

  lemma RemovesOne(st: State, h: HandlerId, p: ProjectId, step: DeleterStep, found: set<ShareId>, s: ShareId)
    requires Revoking(step) && s in found && s in st.shares
    ensures Step(DeleterAt(st, h, p, WithScan(step, found)), DeleterRemoves(h, s, false))
            == DeleterAt(st.(shares := st.shares - {s}), h, p, WithScan(step, found - {s}))
  {
    var next := Step(DeleterAt(st, h, p, WithScan(step, found)), DeleterRemoves(h, s, false));
    assert next.deleters == st.deleters[h := Deleter(p, WithScan(step, found - {s}))];
  }

  /** A whole revocation. */
  lemma RevokesAll(st: State, h: HandlerId, p: ProjectId, step: DeleterStep) returns (actions: seq<Action>)
    requires Revoking(step) && Scan(step).None?
    ensures AllOwn(h, p, actions)
    ensures Run(DeleterAt(st, h, p, step), actions)
            == DeleterAt(st.(shares := st.shares - SharesOf(st, p)), h, p, WithScan(step, {}))
  {
    var found := SharesOf(st, p);
    var from, queried := DeleterAt(st, h, p, step), DeleterAt(st, h, p, WithScan(step, found));
    assert SharesOf(from, p) == found;
    assert Step(from, DeleterQueries(h, false)) == queried by {
      assert Step(from, DeleterQueries(h, false)).deleters == queried.deleters;
    }
    var later := RemovesAll(st, h, p, step, found);
    actions := [DeleterQueries(h, false)] + later;
    hide Step, SharesOf, WithScan;
    RunOne(from, DeleterQueries(h, false));
    RunAppends(from, [DeleterQueries(h, false)], later);
  }

  lemma DeletesTheProject(st: State, h: HandlerId, p: ProjectId) returns (actions: seq<Action>)
    requires p in st.projects
    ensures AllOwn(h, p, actions)
    ensures Run(DeleterAt(st, h, p, FirstRevoke(Some({}))), actions)
            == DeleterAt(st.(projects := st.projects - {p}), h, p, SecondRevoke(None))
  {
    var a := DeleterAt(st, h, p, FirstRevoke(Some({})));
    var b := DeleterAt(st, h, p, PurgeLaunches);
    var c := DeleterAt(st, h, p, DeleteProject);
    var d := DeleterAt(st.(projects := st.projects - {p}), h, p, SecondRevoke(None));
    assert Step(a, DeleterFinishesRevoke(h)).deleters == b.deleters;
    assert Step(b, DeleterPurges(h, false)).deleters == c.deleters;
    assert Step(c, DeleterDeletes(h, false)).deleters == d.deleters;
    assert Run(a, []) == a;
    Extend(a, h, p, [], DeleterFinishesRevoke(h), b);
    Extend(a, h, p, [DeleterFinishesRevoke(h)], DeleterPurges(h, false), c);
    var two := [DeleterFinishesRevoke(h)] + [DeleterPurges(h, false)];
    Extend(a, h, p, two, DeleterDeletes(h, false), d);
    actions := two + [DeleterDeletes(h, false)];
  }

  lemma DeletionStarts(st: State, h: HandlerId, p: ProjectId)
    requires h !in st.deleters
    ensures AllOwn(h, p, [StartDelete(h, p)])
            && Run(st, [StartDelete(h, p)]) == DeleterAt(st, h, p, FirstRevoke(None))
  {
    RunOne(st, StartDelete(h, p));
  }

  lemma DeletionFinishes(st: State, h: HandlerId, p: ProjectId)
    ensures AllOwn(h, p, [DeleterFinishesRevoke(h)])
    ensures Run(DeleterAt(st, h, p, SecondRevoke(Some({}))), [DeleterFinishesRevoke(h)])
            == DeleterAt(st, h, p, DeleteDone(Deleted))
  {
    var from, last := DeleterAt(st, h, p, SecondRevoke(Some({}))), DeleterAt(st, h, p, DeleteDone(Deleted));
    assert Step(from, DeleterFinishesRevoke(h)).deleters == last.deleters;
    RunOne(from, DeleterFinishesRevoke(h));
  }

  lemma NoneOfOthers(st: State, p: ProjectId)
    ensures var revoked := st.(shares := st.shares - SharesOf(st, p), projects := st.projects - {p});
            SharesOf(revoked, p) == {} && revoked.shares - {} == revoked.shares
  {
  }

  lemma AllOwnAppends(h: HandlerId, p: ProjectId, first: seq<Action>, later: seq<Action>)
    requires AllOwn(h, p, first) && AllOwn(h, p, later)
    ensures AllOwn(h, p, first + later)
  {
    hide OwnDeletion;
  }

  /** From every state, a deletion of a stored project that nobody disturbs and whose calls are all
      available is answered with success, and neither the project nor any of its shares is left. */
  lemma UndisturbedDeletionSucceeds(st: State, h: HandlerId, p: ProjectId) returns (actions: seq<Action>)
    requires p in st.projects && h !in st.deleters
    ensures AllOwn(h, p, actions)
    ensures Run(st, actions)
            == DeleterAt(st.(shares := st.shares - SharesOf(st, p), projects := st.projects - {p}), h, p,
              DeleteDone(Deleted))
  {
    hide Run, AllOwn, SharesOf, DeleterAt;
    var revoked := st.(shares := st.shares - SharesOf(st, p));
    var deleted := revoked.(projects := st.projects - {p});
    NoneOfOthers(st, p);
    DeletionStarts(st, h, p);
    var first := RevokesAll(st, h, p, FirstRevoke(None));
    var middle := DeletesTheProject(revoked, h, p);
    var second := RevokesAll(deleted, h, p, SecondRevoke(None));
    assert deleted.(shares := deleted.shares - SharesOf(deleted, p)) == deleted;
    DeletionFinishes(deleted, h, p);
    var a, z := [StartDelete(h, p)], [DeleterFinishesRevoke(h)];
    actions := a + first + middle + second + z;
    RunAppends(st, a, first);
    RunAppends(st, a + first, middle);
    RunAppends(st, a + first + middle, second);
    RunAppends(st, a + first + middle + second, z);
    AllOwnAppends(h, p, a, first);
    AllOwnAppends(h, p, a + first, middle);
    AllOwnAppends(h, p, a + first + middle, second);
    AllOwnAppends(h, p, a + first + middle + second, z);
  }

  // ---- creation ----

  /** This action makes the creation answer, and with this reply. */
  predicate CreationEnds(st: State, h: HandlerId, a: Action, reply: CreateReply) {
    && h in st.creators
    && var Creator(p, step) := st.creators[h];
    match reply
    case ReadFailed(ProjectsUnavailable) => step == ReadProject && a == CreatorReads(h, true)
    case ReadFailed(ProjectNotFound) => step == ReadProject && a == CreatorReads(h, false) && p !in st.projects
    case InsertFailed =>
      step == InsertShare && a.CreatorInserts? && a == CreatorInserts(h, a.share, true) && a.share !in st.everIssued
    case Created(s) => step == RereadProject(s) && a == CreatorRereads(h, false) && p in st.projects
    case Compensated(cause) =>
      step.RevokeShare? && step.cause == cause && a == CreatorRevokes(h, false) && step.unwanted in st.shares
    case CleanupFailed(s, SharesUnavailable) =>
      step.RevokeShare? && step.unwanted == s && a == CreatorRevokes(h, true)
    case CleanupFailed(s, ShareNotFound) =>
      step.RevokeShare? && step.unwanted == s && a == CreatorRevokes(h, false) && s !in st.shares
  }

  predicate CreationAnswered(st: State, h: HandlerId, reply: CreateReply) {
    h in st.creators && st.creators[h].step == CreateDone(reply)
  }

  lemma CreationStepAnswers(st: State, h: HandlerId, a: Action, reply: CreateReply)
    ensures CreationAnswered(Step(st, a), h, reply) <==>
              CreationAnswered(st, h, reply) || CreationEnds(st, h, a, reply)
  {
    DeleterLeavesCreators(StepCreator(st, a), a);
  }

  lemma DeleterLeavesCreators(st: State, a: Action)
    ensures StepDeleter(st, a).creators == st.creators
  {
  }

  ghost predicate CreationEnded(actions: seq<Action>, h: HandlerId, reply: CreateReply) {
    exists i: nat :: i < |actions| && CreationEnds(Run(INIT, actions[..i]), h, actions[i], reply)
  }

  lemma CreationEndedOneMore(actions: seq<Action>, h: HandlerId, reply: CreateReply)
    requires actions != []
    ensures var n := |actions| - 1;
            CreationEnded(actions, h, reply) <==>
              CreationEnded(actions[..n], h, reply) || CreationEnds(Run(INIT, actions[..n]), h, actions[n], reply)
  {
    hide Run, CreationEnds;
    var n := |actions| - 1;
    forall i: nat | i < n
      ensures actions[..n][..i] == actions[..i] && actions[..n][i] == actions[i]
    {
    }
    if CreationEnded(actions[..n], h, reply) {
      var i: nat :| i < n && CreationEnds(Run(INIT, actions[..n][..i]), h, actions[..n][i], reply);
      assert CreationEnds(Run(INIT, actions[..i]), h, actions[i], reply);
    }
    if CreationEnded(actions, h, reply) {
      var i: nat :| i <= n && CreationEnds(Run(INIT, actions[..i]), h, actions[i], reply);
      assert i < n ==> CreationEnds(Run(INIT, actions[..n][..i]), h, actions[..n][i], reply);
    }
  }

  /** A creation has been answered with a reply exactly when one of its own calls came out as that reply
      says, at the step that made it. */
  lemma {:induction false} CreationAnswersExactly(actions: seq<Action>, h: HandlerId, reply: CreateReply)
    ensures CreationAnswered(Run(INIT, actions), h, reply) <==> CreationEnded(actions, h, reply)
  {
    hide Step, CreationEnds;
    if actions != [] {
      var n := |actions| - 1;
      CreationAnswersExactly(actions[..n], h, reply);
      hide CreationEnded, CreationAnswered;
      CreationEndedOneMore(actions, h, reply);
      CreationStepAnswers(Run(INIT, actions[..n]), h, actions[n], reply);
    }
  }

  /** A share that a creation has decided to revoke again is one whose project could not be read. */
  lemma CompensationHasItsCause(st: State, h: HandlerId, a: Action)
    requires h in st.creators && !st.creators[h].step.RevokeShare?
    requires h in Step(st, a).creators && Step(st, a).creators[h].step.RevokeShare?
    ensures var Creator(p, step) := st.creators[h];
            && step == RereadProject(Step(st, a).creators[h].step.unwanted)
            && a.CreatorRereads? && a.handler == h && (a.fault || p !in st.projects)
            && Step(st, a).creators[h].step.cause == (if a.fault then ProjectsUnavailable else ProjectNotFound)
  {
    DeleterLeavesCreators(StepCreator(st, a), a);
  }

  /** From every state, a creation for a stored project that nobody disturbs and whose calls are all
      available hands out its share, and the share is stored. */
  lemma UndisturbedCreationSucceeds(st: State, h: HandlerId, p: ProjectId, s: ShareId)
    requires p in st.projects && h !in st.creators && s !in st.everIssued
    ensures Run(st, [StartCreate(h, p), CreatorReads(h, false), CreatorInserts(h, s, false), CreatorRereads(h, false)])
            == st.(shares := st.shares[s := p], everIssued := st.everIssued + {s},
              creators := st.creators[h := Creator(p, CreateDone(Created(s)))])
  {
    var run := [StartCreate(h, p), CreatorReads(h, false), CreatorInserts(h, s, false), CreatorRereads(h, false)];
    var a := st.(creators := st.creators[h := Creator(p, ReadProject)]);
    var b := st.(creators := st.creators[h := Creator(p, InsertShare)]);
    var stored := st.(shares := st.shares[s := p], everIssued := st.everIssued + {s});
    var c := stored.(creators := st.creators[h := Creator(p, RereadProject(s))]);
    var d := stored.(creators := st.creators[h := Creator(p, CreateDone(Created(s)))]);
    assert Step(a, run[1]).creators == b.creators;
    assert Step(b, run[2]).creators == c.creators;
    assert Step(c, run[3]).creators == d.creators;
    assert run[..1] == [run[0]] && run[..2] == run[..1] + [run[1]] && run[..3] == run[..2] + [run[2]];
    assert run == run[..3] + [run[3]];
    RunOne(st, run[0]);
    RunOne(a, run[1]);
    RunOne(b, run[2]);
    RunOne(c, run[3]);
    hide Step, Run;
    RunAppends(st, run[..1], [run[1]]);
    RunAppends(st, run[..2], [run[2]]);
    RunAppends(st, run[..3], [run[3]]);
  }

  // ---- shares of deleted projects ----

  /** Once all requests have finished, a share of a deleted project survives only when a cleanup failed:
      the revocation of that share by its own creation, or the second revocation of the deletion. */
  lemma NoShareOutlivesItsProject(actions: seq<Action>, s: ShareId)
    requires var end := Run(INIT, actions); Finished(end) && s in end.shares && end.shares[s] !in end.projects
    ensures var end := Run(INIT, actions);
            && end.shares[s] in end.everCreated
            && ((exists h, e :: CreationEnded(actions, h, CleanupFailed(s, e)))
                || exists h :: DeletionEnded(actions, h, SecondRevokeFailed)
                               && h in end.deleters && end.deleters[h].project == end.shares[s])
  {
    LeftoversAreAnswered(actions, s);
    hide Run, Finished, CreationEnded, DeletionEnded;
    var end := Run(INIT, actions);
    if h :| CreatorFailed(end, h, s) {
      var e := end.creators[h].step.createReply.cleanupError;
      CreationAnswersExactly(actions, h, CleanupFailed(s, e));
    } else {
      var h :| DeleterFailed(end, h, end.shares[s]);
      DeletionAnswersExactly(actions, h, SecondRevokeFailed);
    }
  }
}
