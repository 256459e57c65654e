/** What each handler leaves in the tables when it runs alone, from its request to its last write. */
module KybOutcomes {
  import opened Wrappers
  import opened ActionIds
  import opened KybSubmission
  import opened KybWorkflow
  import opened KybTrap

  /** The tables with another status of `u` and another comment on `p`, and nothing else changed. */
  ghost function Decided(db: Db, u: UserId, status: Status, p: ProfileId, comment: Option<string>): Db
    requires u in db.users && p in db.profiles
  {
    Db(db.users[u := User(db.users[u].email, status)],
       db.profiles[p := Profile(db.profiles[p].user, db.profiles[p].papers, comment)],
       db.owners)
  }

  /** With unique emails an update by email changes one user. */
  lemma StatusByEmail(db: Db, u: UserId, status: Status)
    requires db.Valid() && u in db.users
    ensures SetStatusByEmail(db.users, db.users[u].email, status) == db.users[u := db.users[u].(status := status)]
  {
  }

  // ----- A rejection -----

  lemma RejectedTables(s: State, p: ProfileId, u: UserId)
    requires RejectionOpen(s, p, u) && s.db.Valid()
    ensures u in s.db.users && p in s.db.profiles
    ensures Steps(s, 0, 6).db == Decided(s.db, u, Rejected, p, Some(s.reviews[0].reason))
  {
    hide Steps, Next;
    var a := Steps(s, 0, 2);
    var b := Steps(a, 0, 2);
    SixSteps(s, 0);
    PassesChecks(s, 0);
    MarksAndReads(a, 0);
    assert b.db == s.db && b.reviews[0].email == s.db.users[u].email && b.reviews[0].reason == s.reviews[0].reason;
    Rejects(b, 0, u);
    StatusByEmail(s.db, u, Rejected);
  }

  /** A rejection run alone stores its reason as the comment and rejects the user of the profile; papers,
      owners and everybody else are untouched. */
  lemma RejectionAlone(db: Db, p: ProfileId, u: UserId, reason: string)
    requires db.Valid() && p in db.profiles && db.profiles[p].user == Some(u)
    ensures u in db.users
    ensures Exec(Start(db), Rejection(p, reason)).db == Decided(db, u, Rejected, p, Some(reason))
  {
    var open := OpenReview(0, Reject, p, reason);
    var s := Next(Start(db), open);
    RejectionOpens(db, p, u, reason);
    OpenedReview(db, open);
    hide Exec, Next, Steps, RejectionOpen, Decided;
    OpenThenSteps(Start(db), open, 0, 6);
    RejectedTables(s, p, u);
  }

  lemma OpenedReview(db: Db, open: Event)
    requires open.OpenReview? && CanOpen(db, open.profile)
    ensures var s := Next(Start(db), open);
      && s.db == db && s.marks == {} && s.reviews.Keys == {open.r}
      && s.reviews[open.r].reason == open.reason && s.reviews[open.r].action == open.action
      && s.reviews[open.r].profile == open.profile && s.reviews[open.r].phase == CheckApprove
  {
    hide ReviewEffect, FilingEffect, NextReview, ReadForFiling;
  }

  // ----- An approval -----

  /** An approval from the opening of its modal to its last write. */
  ghost function Approval(p: ProfileId): seq<Event> {
    [OpenReview(0, Approve, p, "")] + Times(0, 7)
  }

  lemma SevenSteps(s: State, r: nat)
    ensures Steps(s, r, 7) == Steps(Steps(Steps(Steps(s, r, 2), r, 2), r, 2), r, 1)
  {
    StepsAdd(s, r, 6, 1);
    SixSteps(s, r);
    hide Steps;
  }

  lemma ApprovedTables(s: State, p: ProfileId, u: UserId)
    requires s.marks == {} && s.reviews.Keys == {0} && CanOpen(s.db, p) && s.db.profiles[p].user == Some(u)
    requires s.reviews[0].phase == CheckApprove && s.reviews[0].action == Approve && s.reviews[0].profile == p
    ensures Steps(s, 0, 7).db == Decided(s.db, u, Approved, p, None)
  {
    hide Steps, Next;
    var a := Steps(s, 0, 2);
    var b := Steps(a, 0, 2);
    var c := Steps(b, 0, 2);
    SevenSteps(s, 0);
    PassesChecks(s, 0);
    MarksAndReads(a, 0);
    Approves(b, 0, u);
    ClearsComment(c, 0);
  }

  /** An approval run alone approves the user of the profile and clears the comment; papers, owners and
      everybody else are untouched. */
  lemma ApprovalAlone(db: Db, p: ProfileId, u: UserId)
    requires db.Valid() && p in db.profiles && db.profiles[p].user == Some(u)
    ensures u in db.users
    ensures Exec(Start(db), Approval(p)).db == Decided(db, u, Approved, p, None)
  {
    var open := OpenReview(0, Approve, p, "");
    var s := Next(Start(db), open);
    OpenedReview(db, open);
    assert CanOpen(s.db, p);
    hide Exec, Next, Steps, Decided;
    OpenThenSteps(Start(db), open, 0, 7);
    ApprovedTables(s, p, u);
  }

  /** The same rejection loses its comment when an approval overlaps with it, whatever comment the profile
      had before. */
  lemma OverlapLosesComment(db: Db, p: ProfileId, u: UserId, reason: string) returns (events: seq<Event>)
    requires db.Valid() && p in db.profiles && db.profiles[p].user == Some(u)
    ensures var alone := Exec(Start(db), Rejection(p, reason)).db;
      && u in alone.users && alone.users[u].status == Rejected
      && p in alone.profiles && alone.profiles[p].rejectionComment == Some(reason)
    ensures var both := Exec(Start(db), events).db;
      && u in both.users && both.users[u].status == Rejected
      && p in both.profiles && both.profiles[p].rejectionComment == None
  {
    RejectionAlone(db, p, u, reason);
    hide Exec, Rejection;
    events := OverlappingReviewsBothDecide(db, p, u, reason);
  }

  // ----- Failures on the way -----

  /** A step that fails after the mark was set ends the review and changes no table. */
  lemma FailedStepEnds(s: State, r: nat)
    requires r in s.reviews && s.reviews[r].phase in {ReadPayload, ResolveUser, WriteStatus, WriteComment}
    ensures var t := Next(s, ReviewStep(r, false));
      t.db == s.db && t.marks == s.marks && r in t.reviews && t.reviews[r].phase == Finished
  {
  }

  /** A review whose payload cannot be read: its mark is set, then it ends. */
  ghost function Unreadable(action: Action, p: ProfileId, reason: string): seq<Event> {
    [OpenReview(0, action, p, reason)] + Times(0, 3) + [ReviewStep(0, false)]
  }

  /** It decides nothing, but the profile is marked: from then on no continuation without a restart changes
      the user's status except by a further submission. */
  lemma UnreadableLeavesMark(db: Db, action: Action, p: ProfileId, u: UserId, reason: string)
    requires db.Valid() && p in db.profiles && db.profiles[p].user == Some(u)
    ensures var s := Exec(Start(db), Unreadable(action, p, reason));
      s.db == db && s.marks == {(p, action)} && Quiet(s, p, u)
  {
    var open, fails := OpenReview(0, action, p, reason), ReviewStep(0, false);
    var s := Next(Start(db), open);
    OpenedReview(db, open);
    OpenThenSteps(Start(db), open, 0, 3);
    ExecSnoc(Start(db), [open] + Times(0, 3), fails);
    hide Exec;
    ThreeSteps(s, p, action);
    var t := Steps(s, 0, 3);
    FailedStepEnds(t, 0);
    OnlyOneReview(t, fails);
  }

  lemma ThreeSteps(s: State, p: ProfileId, action: Action)
    requires s.marks == {} && s.reviews.Keys == {0} && s.reviews[0].phase == CheckApprove
    requires s.reviews[0].profile == p && s.reviews[0].action == action
    ensures var t := Steps(s, 0, 3);
      && t.db == s.db && t.marks == {(p, action)} && t.reviews.Keys == {0}
      && t.reviews[0].phase == ReadPayload && t.reviews[0].profile == p
  {
    hide Steps, Next, NextReview, ReviewEffect;
    var a := Steps(s, 0, 2);
    StepsAdd(s, 0, 2, 1);
    PassesChecks(s, 0);
    OneStep(a, 0);
    MarkStep(a, a.reviews[0]);
  }

  lemma OnlyOneReview(s: State, e: Event)
    requires s.reviews.Keys == {0} && e.ReviewStep? && e.r == 0
    ensures Next(s, e).reviews.Keys == {0} && Next(s, e).reviews[0].profile == s.reviews[0].profile
  {
    hide ReviewEffect;
  }

  // ----- A submission -----

  /** A submission whose steps follow each other has the effect of the handler in one piece: it goes through
      exactly if the user may submit. */
  lemma FilingAlone(s: State, f: nat, u: UserId, input: Input, newId: ProfileId)
    requires s.db.Valid() && f !in s.filings && newId !in s.db.profiles
    ensures Exec(s, Resubmission(f, u, input, newId)).db ==
            if MaySubmit(s.db, Some(u)) then Submitted(s.db, u, input, TargetOf(s.db, u, newId)) else s.db
  {
    var e1, e2 := OpenFiling(f, u, input, newId), FilingStep(f, true);
    RunTwo(s, e1, e2);
    ExecSnoc(s, [e1, e2], e2);
    assert [e1, e2] + [e2] == Resubmission(f, u, input, newId);
    hide Exec;
    var g := Filing(u, input, newId, ReadTables);
    var s1 := Next(s, e1);
    assert s1 == s.(clock := s.clock + 1, filings := s.filings[f := g]);
    FilingShape(s1, f, true);
    var s2 := Next(s1, e2);
    FilingShape(s2, f, true);
    hide Next, ReadForFiling, Admits, MaySubmit, TargetOf, Submitted;
    FilingReads(s.db, g);
    assert s2.db == s.db && s2.filings[f] == g.(phase := ReadForFiling(s.db, g));
  }

  /** What the submission reads decides what it does. */
  lemma FilingReads(db: Db, g: Filing)
    requires db.Valid() && g.phase == ReadTables && g.newId !in db.profiles
    ensures var phase := ReadForFiling(db, g);
      if MaySubmit(db, Some(g.user)) then
        && phase.RunTransaction? && phase.target == TargetOf(db, g.user, g.newId)
        && Admits(db, g.(phase := phase))
      else phase == Closed
  {
    if g.user in db.users {
      var mine := db.ProfilesOf(g.user);
      if mine == {} {
        assert forall p :: p in db.profiles && db.profiles[p].user == Some(g.user) ==> p in mine;
      } else {
        OneProfileEach(db, g.user, TargetOf(db, g.user, g.newId));
      }
    }
  }
}
