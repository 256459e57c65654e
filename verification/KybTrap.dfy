/** What marks that are never cleared mean for a rejected profile that is submitted again, and what
    two overlapping reviews can do. */
module KybTrap {
  import opened Wrappers
  import opened ActionIds
  import opened KybSubmission
  import opened KybWorkflow

  // ----- The tables stay valid and every modal speaks of its profile's user -----

  /** The review's profile has a user, whose email the modal carries. */
  ghost predicate Speaks(db: Db, v: Review) {
    && CanOpen(db, v.profile)
    && v.email == db.users[db.profiles[v.profile].user.value].email
    && (v.user.Some? ==> v.user == db.profiles[v.profile].user)
  }

  ghost predicate Honest(s: State) {
    s.db.Valid() && forall r :: r in s.reviews ==> Speaks(s.db, s.reviews[r])
  }

  /** Nobody's profile, user or email is taken away. */
  ghost predicate Grows(d: Db, d': Db) {
    && (forall u :: u in d.users ==> u in d'.users && d'.users[u].email == d.users[u].email)
    && (forall p :: p in d.profiles && d.profiles[p].user.Some? ==>
          p in d'.profiles && d'.profiles[p].user == d.profiles[p].user)
  }

  /** Same users, emails and profiles with the same owners; only statuses and comments may differ. */
  ghost predicate SameShape(d: Db, d': Db) {
    && d'.users.Keys == d.users.Keys && (forall u :: u in d.users ==> d'.users[u].email == d.users[u].email)
    && d'.profiles.Keys == d.profiles.Keys
    && (forall p :: p in d.profiles ==> d'.profiles[p].user == d.profiles[p].user)
    && d'.owners == d.owners
  }

  lemma ReviewKeepsShape(db: Db, v: Review, ok: bool)
    ensures SameShape(db, ReviewEffect(db, v, ok))
  {
  }

  lemma ShapeKeepsTables(d: Db, d': Db)
    requires d.Valid() && SameShape(d, d')
    ensures d'.Valid() && Grows(d, d')
  {
  }

  lemma ReviewKeepsTables(db: Db, v: Review, ok: bool)
    requires db.Valid()
    ensures ReviewEffect(db, v, ok).Valid() && Grows(db, ReviewEffect(db, v, ok))
  {
    hide *;
    ReviewKeepsShape(db, v, ok);
    ShapeKeepsTables(db, ReviewEffect(db, v, ok));
  }

  lemma FilingKeepsTables(db: Db, f: Filing, ok: bool)
    requires db.Valid()
    ensures FilingEffect(db, f, ok).Valid() && Grows(db, FilingEffect(db, f, ok))
  {
    if ok && f.phase.RunTransaction? && Admits(db, f) {
      assert TargetFor(db, f.user, f.phase.target);
      SubmittedValid(db, f.user, f.input, f.phase.target);
    }
  }

  lemma GrowsSame(d: Db)
    ensures Grows(d, d)
  {
  }

  lemma TablesStep(s: State, e: Event)
    requires s.db.Valid()
    ensures Next(s, e).db.Valid() && Grows(s.db, Next(s, e).db)
  {
    GrowsSame(s.db);
    if e.ReviewStep? && e.r in s.reviews { ReviewKeepsTables(s.db, s.reviews[e.r], e.ok); }
    if e.FilingStep? && e.f in s.filings { FilingKeepsTables(s.db, s.filings[e.f], e.ok); }
    hide Grows, ReviewEffect, FilingEffect, NextReview, ReadForFiling, CanOpen;
  }

  lemma SpeaksOn(d: Db, d': Db, v: Review)
    requires Speaks(d, v) && Grows(d, d')
    ensures Speaks(d', v)
  {
  }

  lemma SpeaksNext(s: State, v: Review, ok: bool)
    requires Speaks(s.db, v)
    ensures Speaks(s.db, NextReview(s, v, ok))
  {
  }

  lemma HonestStep(s: State, e: Event)
    requires Honest(s)
    ensures Honest(Next(s, e)) && Grows(s.db, Next(s, e).db)
  {
    TablesStep(s, e);
    var t := Next(s, e);
    hide Grows, ReviewEffect, FilingEffect, ReadForFiling;
    if e.OpenReview? && e.r in t.reviews && e.r !in s.reviews {
      assert t.db == s.db && Speaks(t.db, t.reviews[e.r]);
    }
    hide Speaks;
    forall r | r in t.reviews ensures Speaks(t.db, t.reviews[r]) {
      if r in s.reviews {
        assert Speaks(s.db, s.reviews[r]);
        if e.ReviewStep? && e.r == r { SpeaksNext(s, s.reviews[r], e.ok); }
        SpeaksOn(s.db, t.db, t.reviews[r]);
      }
    }
  }

  /** In every run the tables stay valid: at most one profile per user, although submissions check
      that before their transaction. */
  lemma {:induction false} HonestAlways(db: Db, events: seq<Event>)
    requires db.Valid()
    ensures Honest(Exec(Start(db), events))
  {
    if events != [] {
      HonestAlways(db, events[..|events| - 1]);
      HonestStep(Exec(Start(db), events[..|events| - 1]), events[|events| - 1]);
    }
  }

  // ----- The trap -----

  ghost predicate MarkedIn(s: State, p: ProfileId) {
    (p, Approve) in s.marks || (p, Reject) in s.marks
  }

  /** The profile is marked and no review of it is past the marks. */
  ghost predicate Quiet(s: State, p: ProfileId, u: UserId) {
    && p in s.db.profiles && s.db.profiles[p].user == Some(u) && u in s.db.users
    && MarkedIn(s, p)
    && (forall r :: r in s.reviews && s.reviews[r].profile == p ==>
          && s.reviews[r].phase in {CheckApprove, CheckReject, Finished}
          && (s.reviews[r].phase == CheckReject ==> (p, Reject) in s.marks))
  }

  /** The event commits a submission of the user. */
  ghost predicate Commits(s: State, u: UserId, e: Event) {
    && e.FilingStep? && e.ok && e.f in s.filings && s.filings[e.f].user == u
    && s.filings[e.f].phase.RunTransaction? && Admits(s.db, s.filings[e.f])
  }

  /** Some event of the run commits a submission of the user. */
  ghost predicate Committed(s: State, events: seq<Event>, u: UserId) {
    exists i :: 0 <= i < |events| && Commits(Exec(s, events[..i]), u, events[i])
  }

  /** One event other than a restart leaves the profile quiet, and changes the user's status only by
      committing a submission. */
  lemma QuietStep(s: State, p: ProfileId, u: UserId, e: Event)
    requires Honest(s) && Quiet(s, p, u) && !e.Restart?
    ensures Quiet(Next(s, e), p, u)
    ensures Next(s, e).db.users[u].status == if Commits(s, u, e) then Pending else s.db.users[u].status
  {
    TablesStep(s, e);
    match e
    case OpenReview(_, _, _, _) => QuietAfterOpening(s, p, u, e);
    case OpenFiling(_, _, _, _) => QuietAfterOpening(s, p, u, e);
    case ReviewStep(r, ok) => QuietAfterReview(s, p, u, r, ok);
    case FilingStep(f, ok) => QuietAfterFiling(s, p, u, f, ok);
  }

  lemma QuietAfterOpening(s: State, p: ProfileId, u: UserId, e: Event)
    requires Quiet(s, p, u) && (e.OpenReview? || e.OpenFiling?)
    ensures Quiet(Next(s, e), p, u) && Next(s, e).db == s.db
  {
    hide ReviewEffect, FilingEffect, ReadForFiling, NextReview;
  }

  lemma QuietAfterReview(s: State, p: ProfileId, u: UserId, r: nat, ok: bool)
    requires Honest(s) && Quiet(s, p, u) && Grows(s.db, Next(s, ReviewStep(r, ok)).db)
    ensures Quiet(Next(s, ReviewStep(r, ok)), p, u)
    ensures Next(s, ReviewStep(r, ok)).db.users[u].status == s.db.users[u].status
  {
    if r in s.reviews {
      ReviewLeavesStatus(s, p, u, r, ok);
      NextKeepsProfile(s, s.reviews[r], ok);
    }
    ReviewShape(s, r, ok);
    hide Next, ReviewEffect, NextReview, Honest;
  }

  /** A step of a review only touches that review, the marks and the tables. */
  lemma ReviewShape(s: State, r: nat, ok: bool)
    ensures var t := Next(s, ReviewStep(r, ok));
      if r !in s.reviews then t.reviews == s.reviews && t.marks == s.marks && t.db == s.db
      else
        && t.reviews == s.reviews[r := NextReview(s, s.reviews[r], ok)] && s.marks <= t.marks
        && t.db == ReviewEffect(s.db, s.reviews[r], ok)
  {
    hide ReviewEffect, NextReview;
  }

  lemma NextKeepsProfile(s: State, v: Review, ok: bool)
    ensures NextReview(s, v, ok).profile == v.profile
  {
  }

  lemma QuietAfterFiling(s: State, p: ProfileId, u: UserId, f: nat, ok: bool)
    requires Honest(s) && Quiet(s, p, u) && Grows(s.db, Next(s, FilingStep(f, ok)).db)
    ensures Quiet(Next(s, FilingStep(f, ok)), p, u)
    ensures Next(s, FilingStep(f, ok)).db.users[u].status ==
            if Commits(s, u, FilingStep(f, ok)) then Pending else s.db.users[u].status
  {
    if f in s.filings {
      FilingStatus(s.db, s.filings[f], u, ok);
      FilingShape(s, f, ok);
    }
    hide Next, FilingEffect, ReadForFiling, Admits;
    if f !in s.filings { NothingFiled(s, f, ok); }
  }

  lemma NothingFiled(s: State, f: nat, ok: bool)
    requires f !in s.filings
    ensures Next(s, FilingStep(f, ok)) == s.(clock := s.clock + 1)
  {
  }

  /** A step of a submission only touches that submission and the tables. */
  lemma FilingShape(s: State, f: nat, ok: bool)
    requires f in s.filings
    ensures Next(s, FilingStep(f, ok)) ==
            s.(clock := s.clock + 1,
               filings := s.filings[f := s.filings[f].(phase :=
                 if s.filings[f].phase == ReadTables && ok then ReadForFiling(s.db, s.filings[f]) else Closed)],
               db := FilingEffect(s.db, s.filings[f], ok))
  {
    hide ReadForFiling;
    var g := s.filings[f];
    if g.phase == Closed { assert s.filings[f := g.(phase := Closed)] == s.filings; }
  }

  lemma ReviewLeavesStatus(s: State, p: ProfileId, u: UserId, r: nat, ok: bool)
    requires Honest(s) && Quiet(s, p, u) && r in s.reviews
    ensures u in ReviewEffect(s.db, s.reviews[r], ok).users
    ensures ReviewEffect(s.db, s.reviews[r], ok).users[u].status == s.db.users[u].status
    ensures s.reviews[r].profile == p ==>
              NextReview(s, s.reviews[r], ok).phase in {CheckReject, Finished}
    ensures s.reviews[r].profile == p && NextReview(s, s.reviews[r], ok).phase == CheckReject ==> (p, Reject) in s.marks
  {
    var v := s.reviews[r];
    assert Speaks(s.db, v);
    if v.profile != p {
      assert s.db.profiles[v.profile].user != Some(u);
      hide NextReview;
      OthersUntouched(s.db, v, u, ok);
    }
  }

  lemma OthersUntouched(db: Db, v: Review, u: UserId, ok: bool)
    requires db.Valid() && Speaks(db, v) && u in db.users && db.profiles[v.profile].user != Some(u)
    ensures u in ReviewEffect(db, v, ok).users && ReviewEffect(db, v, ok).users[u].status == db.users[u].status
  {
    assert db.users[u].email != v.email;
  }

  lemma FilingStatus(db: Db, f: Filing, u: UserId, ok: bool)
    requires u in db.users
    ensures u in FilingEffect(db, f, ok).users
    ensures FilingEffect(db, f, ok).users[u].status ==
            if ok && f.user == u && f.phase.RunTransaction? && Admits(db, f) then Pending else db.users[u].status
  {
  }

  /** The trap, from any honest state: without a restart the user's status is that of the start, or
      pending once a submission was committed.  In particular it never becomes approved. */
  lemma {:induction false} QuietForever(s: State, p: ProfileId, u: UserId, events: seq<Event>)
    requires Honest(s) && Quiet(s, p, u) && forall i :: 0 <= i < |events| ==> !events[i].Restart?
    ensures Honest(Exec(s, events)) && Quiet(Exec(s, events), p, u)
    ensures Exec(s, events).db.users[u].status == if Committed(s, events, u) then Pending else s.db.users[u].status
  {
    if events != [] {
      var front, last := events[..|events| - 1], events[|events| - 1];
      QuietForever(s, p, u, front);
      HonestStep(Exec(s, front), last);
      QuietStep(Exec(s, front), p, u, last);
      CommittedSnoc(s, events, u);
      hide Honest, Quiet, Next, Commits, Committed;
    }
  }

  lemma CommittedSnoc(s: State, events: seq<Event>, u: UserId)
    requires events != []
    ensures var n := |events| - 1;
      Committed(s, events, u) <==> Committed(s, events[..n], u) || Commits(Exec(s, events[..n]), u, events[n])
  {
    hide Exec, Commits;
    var front := events[..|events| - 1];
    assert forall i :: 0 <= i < |front| ==> events[..i] == front[..i] && events[i] == front[i];
    if Committed(s, front, u) {
      var i :| 0 <= i < |front| && Commits(Exec(s, front[..i]), u, front[i]);
      assert Commits(Exec(s, events[..i]), u, events[i]);
    }
    if Committed(s, events, u) {
      var i :| 0 <= i < |events| && Commits(Exec(s, events[..i]), u, events[i]);
      if i < |front| { assert Commits(Exec(s, front[..i]), u, front[i]); }
    }
  }

  lemma {:induction false} ExecConcat(s: State, a: seq<Event>, b: seq<Event>)
    ensures Exec(s, a + b) == Exec(Exec(s, a), b)
  {
    if b == [] {
      assert a + b == a;
    } else {
      ExecConcat(s, a, b[..|b| - 1]);
      assert (a + b)[..|a + b| - 1] == a + b[..|b| - 1];
    }
  }

  lemma ExecSnoc(s: State, a: seq<Event>, e: Event)
    ensures Exec(s, a + [e]) == Next(Exec(s, a), e)
  {
    assert (a + [e])[..|a|] == a;
  }

  ghost function Resubmission(f: nat, u: UserId, input: Input, newId: ProfileId): seq<Event> {
    [OpenFiling(f, u, input, newId), FilingStep(f, true), FilingStep(f, true)]
  }

  /** A profile that is marked but not pending or approved can be submitted again; the submission goes
      into the same profile, whose mark stays. */
  lemma Resubmitted(s: State, p: ProfileId, u: UserId, f: nat, input: Input, newId: ProfileId)
    requires Honest(s) && Quiet(s, p, u) && f !in s.filings
    requires s.db.users[u].status !in {Pending, Approved}
    ensures Exec(s, Resubmission(f, u, input, newId)).db == Submitted(s.db, u, input, p)
    ensures Exec(s, Resubmission(f, u, input, newId)).marks == s.marks
    ensures Committed(s, Resubmission(f, u, input, newId), u)
  {
    var e1, e2 := OpenFiling(f, u, input, newId), FilingStep(f, true);
    var events := Resubmission(f, u, input, newId);
    RunTwo(s, e1, e2);
    ExecSnoc(s, [e1, e2], e2);
    assert [e1, e2] + [e2] == events;
    ResubmissionSteps(s, p, u, f, input, newId);
    assert events[..2] == [e1, e2] && events[2] == e2;
    hide Next, Exec, Honest, Commits;
    assert Commits(Exec(s, events[..2]), u, events[2]);
  }

  lemma ResubmissionSteps(s: State, p: ProfileId, u: UserId, f: nat, input: Input, newId: ProfileId)
    requires s.db.Valid() && Quiet(s, p, u) && f !in s.filings
    requires s.db.users[u].status !in {Pending, Approved}
    ensures var t := Next(Next(s, OpenFiling(f, u, input, newId)), FilingStep(f, true));
      && Commits(t, u, FilingStep(f, true))
      && Next(t, FilingStep(f, true)).db == Submitted(s.db, u, input, p)
      && Next(t, FilingStep(f, true)).marks == s.marks
  {
    var g := Filing(u, input, newId, ReadTables);
    ResubmissionReads(s.db, p, u, g);
    var s1 := Next(s, OpenFiling(f, u, input, newId));
    assert s1 == s.(clock := s.clock + 1, filings := s.filings[f := g]);
    FilingShape(s1, f, true);
    var s2 := Next(s1, FilingStep(f, true));
    FilingShape(s2, f, true);
    hide Next, ReadForFiling, Admits, Quiet;
    assert s2.filings[f] == g.(phase := RunTransaction(p, false)) && s2.db == s.db;
  }

  lemma ResubmissionReads(db: Db, p: ProfileId, u: UserId, g: Filing)
    requires db.Valid() && p in db.profiles && db.profiles[p].user == Some(u) && u in db.users && g.user == u
    requires db.users[u].status !in {Pending, Approved}
    ensures ReadForFiling(db, g) == RunTransaction(p, false)
    ensures Admits(db, g.(phase := RunTransaction(p, false)))
  {
  }

  /** The trap: whatever happened before, once a profile is marked and no review of it is past the marks,
      every continuation of the process, however submissions and reviews interleave in it, leaves the
      user's status as it was, or pending if a submission was committed. */
  lemma ResubmissionStaysPending(db: Db, before: seq<Event>, p: ProfileId, u: UserId, later: seq<Event>)
    requires db.Valid() && Quiet(Exec(Start(db), before), p, u)
    requires forall i :: 0 <= i < |later| ==> !later[i].Restart?
    ensures var s, t := Exec(Start(db), before), Exec(Start(db), before + later);
      && Quiet(t, p, u)
      && t.db.users[u].status == if Committed(s, later, u) then Pending else s.db.users[u].status
  {
    HonestAlways(db, before);
    ExecConcat(Start(db), before, later);
    QuietForever(Exec(Start(db), before), p, u, later);
  }

  /** So nothing approves the user within one process. */
  lemma NeverApprovedWithoutRestart(db: Db, before: seq<Event>, p: ProfileId, u: UserId, later: seq<Event>)
    requires db.Valid() && Quiet(Exec(Start(db), before), p, u)
    requires Exec(Start(db), before).db.users[u].status != Approved
    requires forall i :: 0 <= i < |later| ==> !later[i].Restart?
    ensures u in Exec(Start(db), before + later).db.users
    ensures Exec(Start(db), before + later).db.users[u].status != Approved
  {
    ResubmissionStaysPending(db, before, p, u, later);
  }

  // ----- A way out -----

  /** `n` successful steps of review `r` in a row. */
  ghost function Steps(s: State, r: nat, n: nat): State {
    if n == 0 then s else Next(Steps(s, r, n - 1), ReviewStep(r, true))
  }

  ghost function Times(r: nat, n: nat): seq<Event> {
    seq(n, _ => ReviewStep(r, true))
  }

  lemma {:induction false} ExecTimes(s: State, r: nat, n: nat)
    ensures Exec(s, Times(r, n)) == Steps(s, r, n)
  {
    if n != 0 {
      ExecTimes(s, r, n - 1);
      assert Times(r, n)[..n - 1] == Times(r, n - 1);
    }
  }

  /** Only review `r` moved, to the given phase; the tables did not change. */
  ghost predicate Moved(s: State, t: State, r: nat, phase: Phase) {
    && r in s.reviews && t.db == s.db && t.reviews.Keys == s.reviews.Keys
    && (forall q :: q in s.reviews && q != r ==> t.reviews[q] == s.reviews[q])
    && t.reviews[r] == s.reviews[r].(phase := phase, user := t.reviews[r].user,
                                     startedAt := t.reviews[r].startedAt, markedAt := t.reviews[r].markedAt)
  }

  lemma OneStep(s: State, r: nat)
    requires r in s.reviews
    ensures var t := Steps(s, r, 1);
      && t.reviews == s.reviews[r := NextReview(s, s.reviews[r], true)]
      && t.db == ReviewEffect(s.db, s.reviews[r], true)
      && t.marks == if s.reviews[r].phase != SetMark then s.marks
                    else s.marks + {(s.reviews[r].profile, s.reviews[r].action)}
  {
    assert Steps(s, r, 0) == s;
  }

  lemma TwoSteps(s: State, r: nat)
    ensures Steps(s, r, 2) == Steps(Steps(s, r, 1), r, 1)
  {
    assert Steps(s, r, 0) == s;
    assert Steps(Steps(s, r, 1), r, 0) == Steps(s, r, 1);
  }

  lemma CheckStep(s: State, v: Review)
    requires v.phase in {CheckApprove, CheckReject} && !MarkedIn(s, v.profile)
    ensures NextReview(s, v, true) == v.(phase := if v.phase == CheckApprove then CheckReject else SetMark,
                                         startedAt := NextReview(s, v, true).startedAt)
    ensures ReviewEffect(s.db, v, true) == s.db
  {
  }

  lemma MarkStep(s: State, v: Review)
    requires v.phase in {SetMark, ReadPayload}
    ensures NextReview(s, v, true) ==
            v.(phase := if v.phase == SetMark then ReadPayload
                        else if v.action == Reject then WriteStatus else ResolveUser,
               markedAt := NextReview(s, v, true).markedAt)
    ensures ReviewEffect(s.db, v, true) == s.db
  {
  }

  lemma ResolveStep(s: State, v: Review)
    requires v.phase == ResolveUser && CanOpen(s.db, v.profile)
    ensures NextReview(s, v, true) == v.(phase := WriteStatus, user := s.db.profiles[v.profile].user)
    ensures ReviewEffect(s.db, v, true) == s.db
  {
  }

  lemma ApproveStep(s: State, v: Review)
    requires v.phase == WriteStatus && v.action == Approve && v.user.Some? && v.user.value in s.db.users
    ensures NextReview(s, v, true) == v.(phase := WriteComment, wrote := true)
    ensures ReviewEffect(s.db, v, true) ==
            s.db.(users := s.db.users[v.user.value := s.db.users[v.user.value].(status := Approved)])
  {
  }

  lemma RejectStep(s: State, v: Review)
    requires v.phase == WriteStatus && v.action == Reject
    ensures NextReview(s, v, true) == v.(phase := WriteComment, wrote := true)
    ensures ReviewEffect(s.db, v, true) == s.db.(users := SetStatusByEmail(s.db.users, v.email, Rejected))
  {
  }

  lemma CommentStep(s: State, v: Review)
    requires v.phase == WriteComment
    ensures NextReview(s, v, true) == v.(phase := Finished, wrote := true)
    ensures ReviewEffect(s.db, v, true) ==
            s.db.(profiles := SetComment(s.db.profiles, v.profile, if v.action == Reject then Some(v.reason) else None))
  {
  }

  /** The two checks find no mark. */
  lemma PassesChecks(s: State, r: nat)
    requires r in s.reviews && s.reviews[r].phase == CheckApprove && !MarkedIn(s, s.reviews[r].profile)
    ensures Moved(s, Steps(s, r, 2), r, SetMark) && Steps(s, r, 2).marks == s.marks
  {
    hide Steps, Next, NextReview, ReviewEffect;
    var m := Steps(s, r, 1);
    TwoSteps(s, r);
    OneStep(s, r);
    CheckStep(s, s.reviews[r]);
    OneStep(m, r);
    CheckStep(m, m.reviews[r]);
  }

  lemma MarksAndReads(s: State, r: nat)
    requires r in s.reviews && s.reviews[r].phase == SetMark
    ensures Moved(s, Steps(s, r, 2), r, if s.reviews[r].action == Reject then WriteStatus else ResolveUser)
    ensures (s.reviews[r].profile, s.reviews[r].action) in Steps(s, r, 2).marks
  {
    hide Steps, Next, NextReview, ReviewEffect;
    var m := Steps(s, r, 1);
    TwoSteps(s, r);
    OneStep(s, r);
    MarkStep(s, s.reviews[r]);
    OneStep(m, r);
    MarkStep(m, m.reviews[r]);
  }

  /** An approval finds the user and writes the status. */
  lemma Approves(s: State, r: nat, u: UserId)
    requires r in s.reviews && s.reviews[r].phase == ResolveUser && s.reviews[r].action == Approve
    requires CanOpen(s.db, s.reviews[r].profile) && s.db.profiles[s.reviews[r].profile].user == Some(u)
    ensures var t := Steps(s, r, 2);
      && t.db == s.db.(users := s.db.users[u := s.db.users[u].(status := Approved)])
      && t.reviews.Keys == s.reviews.Keys && (forall q :: q in s.reviews && q != r ==> t.reviews[q] == s.reviews[q])
      && t.reviews[r].phase == WriteComment && t.reviews[r].wrote
      && t.reviews[r].action == Approve && t.reviews[r].profile == s.reviews[r].profile
  {
    hide Steps, Next, NextReview, ReviewEffect;
    var m := Steps(s, r, 1);
    TwoSteps(s, r);
    OneStep(s, r);
    ResolveStep(s, s.reviews[r]);
    OneStep(m, r);
    ApproveStep(m, m.reviews[r]);
  }

  lemma ApprovesAlone(s: State, p: ProfileId, u: UserId)
    requires 0 in s.reviews && s.reviews[0].phase == CheckApprove && s.reviews[0].action == Approve
    requires s.reviews[0].profile == p && !MarkedIn(s, p) && CanOpen(s.db, p) && s.db.profiles[p].user == Some(u)
    ensures var t := Steps(Steps(Steps(s, 0, 2), 0, 2), 0, 2); u in t.db.users && t.db.users[u].status == Approved
  {
    hide Steps, Next;
    PassesChecks(s, 0);
    MarksAndReads(Steps(s, 0, 2), 0);
    Approves(Steps(Steps(s, 0, 2), 0, 2), 0, u);
  }

  /** With an empty marks map, which only a new process has, the same profile can be approved. */
  lemma FreshProcessCanApprove(s: State, p: ProfileId, u: UserId) returns (events: seq<Event>)
    requires p in s.db.profiles && s.db.profiles[p].user == Some(u) && u in s.db.users
    ensures events != [] && events[0] == Restart && forall i :: 1 <= i < |events| ==> !events[i].Restart?
    ensures u in Exec(s, events).db.users && Exec(s, events).db.users[u].status == Approved
  {
    var open := OpenReview(0, Approve, p, "");
    FreshlyOpened(s, p, u);
    hide *;
    events := [Restart, open];
    var t := Exec(s, events);
    var u1, e1 := Then(s, events, t, 0, 2);
    var u2, e2 := Then(s, e1, u1, 0, 2);
    var u3, e3 := Then(s, e2, u2, 0, 2);
    events := e3;
  }

  lemma FreshlyOpened(s: State, p: ProfileId, u: UserId)
    requires p in s.db.profiles && s.db.profiles[p].user == Some(u) && u in s.db.users
    ensures var t := Steps(Steps(Steps(Exec(s, [Restart, OpenReview(0, Approve, p, "")]), 0, 2), 0, 2), 0, 2);
      u in t.db.users && t.db.users[u].status == Approved
  {
    hide *;
    OpenedAfterRestart(s, p, u);
    ApprovesAlone(Exec(s, [Restart, OpenReview(0, Approve, p, "")]), p, u);
  }

  lemma OpenedAfterRestart(s: State, p: ProfileId, u: UserId)
    requires p in s.db.profiles && s.db.profiles[p].user == Some(u) && u in s.db.users
    ensures var t := Exec(s, [Restart, OpenReview(0, Approve, p, "")]);
      && 0 in t.reviews && t.reviews[0].phase == CheckApprove && t.reviews[0].action == Approve
      && t.reviews[0].profile == p && !MarkedIn(t, p) && CanOpen(t.db, p) && t.db.profiles[p].user == Some(u)
  {
    hide Exec, ReviewEffect, FilingEffect, NextReview, ReadForFiling;
    var open := OpenReview(0, Approve, p, "");
    RunTwo(s, Restart, open);
    var restarted := Next(s, Restart);
    assert restarted.db == s.db && restarted.reviews == map[] && restarted.marks == {};
  }

  lemma RunTwo(s: State, d: Event, e: Event)
    ensures Exec(s, [d, e]) == Next(Next(s, d), e)
  {
    hide Next;
    ExecSnoc(s, [], d);
    ExecSnoc(s, [d], e);
    assert [] + [d] == [d] && [d] + [e] == [d, e];
  }

  // ----- Overlapping reviews -----

  lemma Rejects(s: State, r: nat, u: UserId)
    requires r in s.reviews && s.reviews[r].phase == WriteStatus && s.reviews[r].action == Reject
    requires u in s.db.users && s.db.users[u].email == s.reviews[r].email
    ensures var t := Steps(s, r, 2);
      && u in t.db.users && t.db.users[u].status == Rejected
      && t.db == s.db.(users := SetStatusByEmail(s.db.users, s.reviews[r].email, Rejected),
                       profiles := SetComment(s.db.profiles, s.reviews[r].profile, Some(s.reviews[r].reason)))
      && t.reviews.Keys == s.reviews.Keys && (forall q :: q in s.reviews && q != r ==> t.reviews[q] == s.reviews[q])
      && t.reviews[r].wrote && t.reviews[r].phase == Finished && t.marks == s.marks
  {
    hide Steps, Next, NextReview, ReviewEffect;
    var m := Steps(s, r, 1);
    TwoSteps(s, r);
    OneStep(s, r);
    RejectStep(s, s.reviews[r]);
    OneStep(m, r);
    CommentStep(m, m.reviews[r]);
  }

  lemma ClearsComment(s: State, r: nat)
    requires r in s.reviews && s.reviews[r].phase == WriteComment && s.reviews[r].action == Approve
    ensures var t := Steps(s, r, 1);
      && t.db == s.db.(profiles := SetComment(s.db.profiles, s.reviews[r].profile, None))
      && t.reviews.Keys == s.reviews.Keys && (forall q :: q in s.reviews && q != r ==> t.reviews[q] == s.reviews[q])
      && t.reviews[r].wrote
  {
    hide Steps, Next, NextReview, ReviewEffect;
    OneStep(s, r);
    CommentStep(s, s.reviews[r]);
  }

  /** Two reviews of one profile opened before either has checked. */
  ghost predicate BothOpen(s: State, p: ProfileId, u: UserId) {
    && !MarkedIn(s, p) && s.reviews.Keys == {0, 1}
    && s.reviews[0].phase == CheckApprove && s.reviews[0].action == Approve && s.reviews[0].profile == p
    && s.reviews[1].phase == CheckApprove && s.reviews[1].action == Reject && s.reviews[1].profile == p
    && CanOpen(s.db, p) && s.db.profiles[p].user == Some(u) && s.reviews[1].email == s.db.users[u].email
  }

  /** Both check, then both go on: the user ends up rejected although the rejection comment was
      cleared by the approval, and both have decided. */
  lemma BothDecide(s: State, p: ProfileId, u: UserId)
    requires BothOpen(s, p, u)
    ensures var checked := Steps(Steps(s, 0, 2), 1, 2);
      var t := Steps(Steps(Steps(Steps(Steps(checked, 0, 2), 0, 2), 1, 2), 1, 2), 0, 1);
      && t.reviews.Keys == {0, 1} && t.reviews[0].wrote && t.reviews[1].wrote
      && u in t.db.users && t.db.users[u].status == Rejected
      && p in t.db.profiles && t.db.profiles[p].rejectionComment == None
  {
    hide Steps, Next;
    var a := Steps(s, 0, 2);
    var b := Steps(a, 1, 2);
    PassesChecks(s, 0);
    PassesChecks(a, 1);
    var c := Steps(b, 0, 2);
    MarksAndReads(b, 0);
    var d := Steps(c, 0, 2);
    Approves(c, 0, u);
    var e := Steps(d, 1, 2);
    MarksAndReads(d, 1);
    var f := Steps(e, 1, 2);
    Rejects(e, 1, u);
    ClearsComment(f, 0);
  }

  /** Such a run exists for every profile that has a user. */
  lemma OverlappingReviewsBothDecide(db: Db, p: ProfileId, u: UserId, reason: string) returns (events: seq<Event>)
    requires p in db.profiles && db.profiles[p].user == Some(u) && u in db.users
    ensures var s := Exec(Start(db), events);
      && s.reviews.Keys == {0, 1} && s.reviews[0].wrote && s.reviews[1].wrote
      && u in s.db.users && s.db.users[u].status == Rejected
      && p in s.db.profiles && s.db.profiles[p].rejectionComment == None
  {
    var s := Start(db);
    var open0, open1 := OpenReview(0, Approve, p, ""), OpenReview(1, Reject, p, reason);
    ExecSnoc(s, [], open0);
    ExecSnoc(s, [open0], open1);
    assert [] + [open0] == [open0];
    var t := Next(Next(s, open0), open1);
    assert BothOpen(t, p, u);
    BothDecide(t, p, u);
    events := [open0] + [open1];
    hide Next, Exec, Steps;
    var u1, e1 := Then(s, events, t, 0, 2);
    var u2, e2 := Then(s, e1, u1, 1, 2);
    var u3, e3 := Then(s, e2, u2, 0, 2);
    var u4, e4 := Then(s, e3, u3, 0, 2);
    var u5, e5 := Then(s, e4, u4, 1, 2);
    var u6, e6 := Then(s, e5, u5, 1, 2);
    var u7, e7 := Then(s, e6, u6, 0, 1);
    events := e7;
  }

  lemma Then(s: State, events: seq<Event>, t: State, r: nat, n: nat) returns (t': State, events': seq<Event>)
    requires t == Exec(s, events) && events != [] && forall i :: 1 <= i < |events| ==> !events[i].Restart?
    ensures t' == Steps(t, r, n) && t' == Exec(s, events')
    ensures events' != [] && events'[0] == events[0] && forall i :: 1 <= i < |events'| ==> !events'[i].Restart?
  {
    events' := events + Times(r, n);
    ExecConcat(s, events, Times(r, n));
    ExecTimes(t, r, n);
    t' := Steps(t, r, n);
  }

  // ----- A way into the trap -----

  /** A rejection from the opening of its modal to its last write. */
  ghost function Rejection(p: ProfileId, reason: string): seq<Event> {
    [OpenReview(0, Reject, p, reason)] + Times(0, 6)
  }

  lemma {:induction false} StepsKeepFilings(s: State, r: nat, n: nat)
    ensures Steps(s, r, n).filings == s.filings
  {
    if n != 0 {
      StepsKeepFilings(s, r, n - 1);
      hide NextReview, ReviewEffect;
    }
  }

  lemma SixSteps(s: State, r: nat)
    ensures Steps(s, r, 6) == Steps(Steps(Steps(s, r, 2), r, 2), r, 2)
  {
    StepsAdd(s, r, 2, 2);
    StepsAdd(s, r, 4, 2);
    hide Steps;
  }

  lemma {:induction false} StepsAdd(s: State, r: nat, m: nat, n: nat)
    ensures Steps(s, r, m + n) == Steps(Steps(s, r, m), r, n)
  {
    hide Next;
    if n != 0 { StepsAdd(s, r, m, n - 1); }
  }

  /** The review of a fresh process that is about to check an unmarked profile. */
  ghost predicate RejectionOpen(s: State, p: ProfileId, u: UserId) {
    && s.marks == {} && s.filings == map[] && s.reviews.Keys == {0}
    && s.reviews[0].phase == CheckApprove && s.reviews[0].action == Reject && s.reviews[0].profile == p
    && CanOpen(s.db, p) && s.db.profiles[p].user == Some(u) && s.reviews[0].email == s.db.users[u].email
  }

  lemma RejectionOpens(db: Db, p: ProfileId, u: UserId, reason: string)
    requires db.Valid() && p in db.profiles && db.profiles[p].user == Some(u)
    ensures RejectionOpen(Next(Start(db), OpenReview(0, Reject, p, reason)), p, u)
  {
    hide ReviewEffect, FilingEffect, NextReview, ReadForFiling;
  }

  lemma RejectedAlone(s: State, p: ProfileId, u: UserId)
    requires RejectionOpen(s, p, u)
    ensures var t := Steps(s, 0, 6);
      Quiet(t, p, u) && t.db.users[u].status == Rejected && t.filings == map[]
  {
    hide Steps, Next;
    var a := Steps(s, 0, 2);
    var b := Steps(a, 0, 2);
    SixSteps(s, 0);
    StepsKeepFilings(s, 0, 6);
    PassesChecks(s, 0);
    MarksAndReads(a, 0);
    Rejects(b, 0, u);
  }

  /** From every valid database the rejection of a profile leads to where the trap starts. */
  lemma RejectionReachesTrap(db: Db, p: ProfileId, u: UserId, reason: string)
    requires db.Valid() && p in db.profiles && db.profiles[p].user == Some(u)
    ensures var s := Exec(Start(db), Rejection(p, reason));
      Quiet(s, p, u) && s.db.users[u].status == Rejected && s.filings == map[]
  {
    var open := OpenReview(0, Reject, p, reason);
    assert Rejection(p, reason) == [open] + Times(0, 6);
    hide *;
    OpenThenSteps(Start(db), open, 0, 6);
    RejectionOpens(db, p, u, reason);
    RejectedAlone(Next(Start(db), open), p, u);
    QuietUser(Steps(Next(Start(db), open), 0, 6), p, u);
  }

  lemma OpenThenSteps(s: State, open: Event, r: nat, n: nat)
    ensures Exec(s, [open] + Times(r, n)) == Steps(Next(s, open), r, n)
  {
    ExecSnoc(s, [], open);
    assert [] + [open] == [open];
    hide Exec, Next, Steps, Times;
    assert Exec(s, []) == s by { ExecNothing(s); }
    ExecConcat(s, [open], Times(r, n));
    ExecTimes(Next(s, open), r, n);
  }

  lemma ExecNothing(s: State)
    ensures Exec(s, []) == s
  {
  }

  /** The trap from end to end, for every valid database and every profile of a user: rejected, submitted
      again, and pending at the end of every continuation without a restart. */
  lemma RejectedThenTrapped(db: Db, p: ProfileId, u: UserId, reason: string, f: nat, input: Input, newId: ProfileId,
                            later: seq<Event>)
    requires db.Valid() && p in db.profiles && db.profiles[p].user == Some(u)
    requires forall i :: 0 <= i < |later| ==> !later[i].Restart?
    ensures var rejected := Exec(Start(db), Rejection(p, reason));
      && u in rejected.db.users && rejected.db.users[u].status == Rejected
    ensures var s := Exec(Start(db), Rejection(p, reason) + Resubmission(f, u, input, newId));
      && s.db == Submitted(Exec(Start(db), Rejection(p, reason)).db, u, input, p)
    ensures var t := Exec(Start(db), Rejection(p, reason) + Resubmission(f, u, input, newId) + later);
      && Quiet(t, p, u) && u in t.db.users && t.db.users[u].status == Pending
  {
    RejectionReachesTrap(db, p, u, reason);
    ResubmittedFrom(db, Rejection(p, reason), p, u, f, input, newId);
    QuietUser(Exec(Start(db), Rejection(p, reason)), p, u);
    hide *;
    OnceCommitted(db, Rejection(p, reason), Resubmission(f, u, input, newId), p, u, later);
  }

  lemma ResubmittedFrom(db: Db, before: seq<Event>, p: ProfileId, u: UserId, f: nat, input: Input, newId: ProfileId)
    requires db.Valid() && Quiet(Exec(Start(db), before), p, u)
    requires Exec(Start(db), before).db.users[u].status == Rejected && Exec(Start(db), before).filings == map[]
    ensures var s, again := Exec(Start(db), before), Resubmission(f, u, input, newId);
      && Exec(Start(db), before + again).db == Submitted(s.db, u, input, p)
      && Committed(s, again, u) && forall i :: 0 <= i < |again| ==> !again[i].Restart?
  {
    HonestAlways(db, before);
    hide Exec, Committed, Submitted, Honest;
    ExecConcat(Start(db), before, Resubmission(f, u, input, newId));
    Resubmitted(Exec(Start(db), before), p, u, f, input, newId);
  }

  /** Once a submission was committed the user is pending, and stays so. */
  lemma OnceCommitted(db: Db, before: seq<Event>, again: seq<Event>, p: ProfileId, u: UserId, later: seq<Event>)
    requires db.Valid() && Quiet(Exec(Start(db), before), p, u) && Committed(Exec(Start(db), before), again, u)
    requires forall i :: 0 <= i < |again| ==> !again[i].Restart?
    requires forall i :: 0 <= i < |later| ==> !later[i].Restart?
    ensures var t := Exec(Start(db), before + again + later);
      && Quiet(t, p, u) && u in t.db.users && t.db.users[u].status == Pending
  {
    QuietUser(Exec(Start(db), before), p, u);
    hide Exec, Committed;
    ResubmissionStaysPending(db, before, p, u, again);
    ResubmissionStaysPending(db, before + again, p, u, later);
  }

  lemma QuietUser(s: State, p: ProfileId, u: UserId)
    requires Quiet(s, p, u)
    ensures u in s.db.users
  {
  }
}
