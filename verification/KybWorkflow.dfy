/** Submissions and reviews of KYB profiles running concurrently in one process.

    A run is any sequence of events; every event is one lock acquisition, one database access, one
    transaction, which takes effect as a whole, or the arrival of a request, so the theorems about all
    event sequences are about all interleavings. */
module KybWorkflow {
  import opened Wrappers
  import opened ActionIds
  import opened KybSubmission

  // ----- State -----

  /** Where a review handler is.  The two marks are read in two separate critical sections, the
      handler's own mark is set in a third. */
  datatype Phase =
    | CheckApprove | CheckReject | SetMark | ReadPayload | ResolveUser | WriteStatus | WriteComment | Finished

  /** A modal submission.  `email` and `profile` come from the modal, which was built from the
      database when it was opened; the times and `wrote` are history. */
  datatype Review = Review(
    action: Action, profile: ProfileId, email: string, reason: string, phase: Phase, user: Option<UserId>,
    startedAt: Option<nat>, markedAt: Option<nat>, wrote: bool)

  datatype FilingPhase = ReadTables | RunTransaction(target: ProfileId, creates: bool) | Closed

  /** A KYB submission: it reads the tables, then runs its transaction. */
  datatype Filing = Filing(user: UserId, input: Input, newId: ProfileId, phase: FilingPhase)

  datatype State = State(
    clock: nat, marks: set<(ProfileId, Action)>, reviews: map<nat, Review>, filings: map<nat, Filing>, db: Db)

  datatype Event =
    | OpenReview(r: nat, action: Action, profile: ProfileId, reason: string)
    | ReviewStep(r: nat, ok: bool)
    | OpenFiling(f: nat, user: UserId, input: Input, newId: ProfileId)
    | FilingStep(f: nat, ok: bool)
    | Restart

  ghost function Start(db: Db): State {
    State(0, {}, map[], map[], db)
  }

  // ----- Steps -----

  ghost function SetStatusByEmail(users: map<UserId, User>, email: string, s: Status): map<UserId, User> {
    map u | u in users :: if users[u].email == email then users[u].(status := s) else users[u]
  }

  ghost function SetComment(profiles: map<ProfileId, Profile>, p: ProfileId, comment: Option<string>)
    : map<ProfileId, Profile>
  {
    if p in profiles then profiles[p := profiles[p].(rejectionComment := comment)] else profiles
  }

  ghost function NextReview(s: State, v: Review, ok: bool): Review {
    match v.phase
    case CheckApprove =>
      v.(startedAt := Some(s.clock), phase := if (v.profile, Approve) in s.marks then Finished else CheckReject)
    case CheckReject => v.(phase := if (v.profile, Reject) in s.marks then Finished else SetMark)
    case SetMark => v.(markedAt := Some(s.clock), phase := ReadPayload)
    case ReadPayload => v.(phase := if !ok then Finished else if v.action == Reject then WriteStatus else ResolveUser)
    case ResolveUser =>
      if ok && v.profile in s.db.profiles && s.db.profiles[v.profile].user.Some?
      then v.(user := s.db.profiles[v.profile].user, phase := WriteStatus)
      else v.(phase := Finished)
    case WriteStatus =>
      if ok && (v.action == Reject || (v.user.Some? && v.user.value in s.db.users))
      then v.(phase := WriteComment, wrote := true)
      else v.(phase := Finished)
    case WriteComment => v.(phase := Finished, wrote := v.wrote || ok)
    case Finished => v
  }

  /** The effect of the step on the tables. */
  ghost function ReviewEffect(db: Db, v: Review, ok: bool): Db {
    if !ok then db
    else if v.phase == WriteStatus then
      if v.action == Reject then db.(users := SetStatusByEmail(db.users, v.email, Rejected))
      else if v.user.Some? && v.user.value in db.users then
        db.(users := db.users[v.user.value := db.users[v.user.value].(status := Approved)])
      else db
    else if v.phase == WriteComment then
      db.(profiles := SetComment(db.profiles, v.profile, if v.action == Reject then Some(v.reason) else None))
    else db
  }

  /** The status check of a submission, outside the transaction. */
  ghost function ReadForFiling(db: Db, f: Filing): FilingPhase {
    if f.user !in db.users then Closed
    else if exists p :: p in db.profiles && db.profiles[p].user == Some(f.user) then
      var p :| p in db.profiles && db.profiles[p].user == Some(f.user);
      if db.users[f.user].status in {Pending, Approved} then Closed else RunTransaction(p, false)
    else RunTransaction(f.newId, true)
  }

  /** The database admits the transaction: an existing profile is updated, a new one is created only
      under a new identifier and for a user without a profile. */
  ghost predicate Admits(db: Db, f: Filing)
    requires f.phase.RunTransaction?
  {
    && f.user in db.users
    && if f.phase.creates then
         f.phase.target !in db.profiles && forall p :: p in db.profiles ==> db.profiles[p].user != Some(f.user)
       else f.phase.target in db.profiles && db.profiles[f.phase.target].user == Some(f.user)
  }

  ghost function FilingEffect(db: Db, f: Filing, ok: bool): Db {
    if ok && f.phase.RunTransaction? && Admits(db, f) then Submitted(db, f.user, f.input, f.phase.target) else db
  }

  /** A modal exists only for a profile with a user. */
  ghost predicate CanOpen(db: Db, p: ProfileId) {
    p in db.profiles && db.profiles[p].user.Some? && db.profiles[p].user.value in db.users
  }

  /** One event; an event that is not possible changes nothing but the clock. */
  ghost function Next(s: State, e: Event): State {
    var t := s.(clock := s.clock + 1);
    match e
    case OpenReview(r, action, p, reason) =>
      if r in s.reviews || !CanOpen(s.db, p) then t
      else
        var email := s.db.users[s.db.profiles[p].user.value].email;
        t.(reviews := s.reviews[r := Review(action, p, email, reason, CheckApprove, None, None, None, false)])
    case ReviewStep(r, ok) =>
      if r !in s.reviews then t
      else
        var v := s.reviews[r];
        t.(reviews := s.reviews[r := NextReview(s, v, ok)],
           marks := if v.phase == SetMark then s.marks + {(v.profile, v.action)} else s.marks,
           db := ReviewEffect(s.db, v, ok))
    case OpenFiling(f, u, input, newId) =>
      if f in s.filings then t else t.(filings := s.filings[f := Filing(u, input, newId, ReadTables)])
    case FilingStep(f, ok) =>
      if f !in s.filings then t
      else
        var g := s.filings[f];
        (match g.phase
        case ReadTables => t.(filings := s.filings[f := g.(phase := if ok then ReadForFiling(s.db, g) else Closed)])
        case RunTransaction(_, _) => t.(filings := s.filings[f := g.(phase := Closed)], db := FilingEffect(s.db, g, ok))
        case Closed => t)
    case Restart => t.(marks := {}, reviews := map[], filings := map[])
  }

  ghost function Exec(s: State, events: seq<Event>): State {
    if events == [] then s else Next(Exec(s, events[..|events| - 1]), events[|events| - 1])
  }

  // ----- What every run keeps -----

  ghost predicate Passed(v: Review) {
    v.phase in {ReadPayload, ResolveUser, WriteStatus, WriteComment}
  }

  /** The history of one review is consistent with its phase and with the marks. */
  ghost predicate Consistent(s: State, v: Review) {
    && (v.startedAt.None? <==> v.phase == CheckApprove)
    && (v.startedAt.Some? ==> v.startedAt.value < s.clock)
    && (v.markedAt.Some? ==> v.startedAt.Some? && v.startedAt.value < v.markedAt.value < s.clock)
    && (v.markedAt.Some? ==> (v.profile, v.action) in s.marks)
    && (v.markedAt.Some? ==> v.phase == Finished || Passed(v))
    && (Passed(v) || v.wrote ==> v.markedAt.Some?)
  }

  /** A review that started after another one's mark is, or is about to be, turned away. */
  ghost predicate TurnedAway(marker: Review, late: Review) {
    marker.profile == late.profile && marker.markedAt.Some? && late.startedAt.Some?
      && marker.markedAt.value < late.startedAt.value ==>
        && late.markedAt.None? && !late.wrote
        && (late.phase == Finished || (late.phase == CheckReject && marker.action == Reject))
  }

  ghost predicate Inv(s: State) {
    && (forall r :: r in s.reviews ==> Consistent(s, s.reviews[r]))
    && (forall a, b :: a in s.reviews && b in s.reviews ==> TurnedAway(s.reviews[a], s.reviews[b]))
  }

  lemma {:induction false} InvAlways(db: Db, events: seq<Event>)
    ensures Inv(Exec(Start(db), events))
  {
    if events != [] {
      InvAlways(db, events[..|events| - 1]);
      InvStep(Exec(Start(db), events[..|events| - 1]), events[|events| - 1]);
    }
  }

  lemma InvStep(s: State, e: Event)
    requires Inv(s)
    ensures Inv(Next(s, e))
  {
    if e.ReviewStep? && e.r in s.reviews {
      ReviewStepKeepsInv(s, e.r, e.ok);
    } else {
      var t := Next(s, e);
      hide NextReview, ReviewEffect, FilingEffect, ReadForFiling;
      forall r | r in t.reviews ensures Consistent(t, t.reviews[r]) {
        if r in s.reviews { assert Consistent(s, s.reviews[r]); }
      }
      forall a, b | a in t.reviews && b in t.reviews ensures TurnedAway(t.reviews[a], t.reviews[b]) {
        if a in s.reviews && b in s.reviews { assert TurnedAway(s.reviews[a], s.reviews[b]); }
      }
    }
  }

  lemma ReviewStepKeepsInv(s: State, r: nat, ok: bool)
    requires Inv(s) && r in s.reviews
    ensures Inv(Next(s, ReviewStep(r, ok)))
  {
    var t := Next(s, ReviewStep(r, ok));
    var v := s.reviews[r];
    assert t.reviews == s.reviews[r := NextReview(s, v, ok)] && s.marks <= t.marks && t.clock == s.clock + 1;
    assert v.phase == SetMark ==> (v.profile, v.action) in t.marks;
    hide Next, ReviewEffect;
    StepConsistent(s, t, v, ok);
    forall a | a in t.reviews ensures Consistent(t, t.reviews[a]) {
      assert Consistent(s, s.reviews[a]);
    }
    hide NextReview;
    forall a, b | a in t.reviews && b in t.reviews ensures TurnedAway(t.reviews[a], t.reviews[b]) {
      assert TurnedAway(s.reviews[a], s.reviews[b]);
      assert Consistent(s, s.reviews[a]) && Consistent(s, s.reviews[b]);
      if b == r && a != r { StepAsLate(s, s.reviews[a], v, ok); }
      if a == r && b != r { StepAsMarker(s, v, s.reviews[b], ok); }
    }
  }

  lemma StepConsistent(s: State, t: State, v: Review, ok: bool)
    requires Consistent(s, v) && t.clock == s.clock + 1 && s.marks <= t.marks
    requires v.phase == SetMark ==> (v.profile, v.action) in t.marks
    ensures Consistent(t, NextReview(s, v, ok))
  {
  }

  /** Whoever started after the mark finds it at the first or at the second look. */
  lemma StepAsLate(s: State, marker: Review, late: Review, ok: bool)
    requires Consistent(s, marker) && Consistent(s, late) && TurnedAway(marker, late)
    ensures TurnedAway(marker, NextReview(s, late, ok))
  {
  }

  lemma StepAsMarker(s: State, marker: Review, late: Review, ok: bool)
    requires Consistent(s, marker) && Consistent(s, late) && TurnedAway(marker, late)
    ensures TurnedAway(NextReview(s, marker, ok), late)
  {
  }

  // ----- Decisions -----

  /** In every interleaving, a review whose check starts after some review of the same profile has set
      its mark never writes a status or a comment. */
  lemma LateReviewNeverWrites(db: Db, events: seq<Event>, a: nat, b: nat)
    requires var s := Exec(Start(db), events);
      && a in s.reviews && b in s.reviews && s.reviews[a].profile == s.reviews[b].profile
      && s.reviews[a].markedAt.Some? && s.reviews[b].startedAt.Some?
      && s.reviews[a].markedAt.value < s.reviews[b].startedAt.value
    ensures !Exec(Start(db), events).reviews[b].wrote
  {
    InvAlways(db, events);
    var s := Exec(Start(db), events);
    assert TurnedAway(s.reviews[a], s.reviews[b]);
  }

  lemma WritesAreRecorded(s: State, r: nat, ok: bool)
    ensures var t := Next(s, ReviewStep(r, ok)); t.db != s.db ==> r in t.reviews && t.reviews[r].wrote
  {
  }

  lemma WroteStays(s: State, e: Event, r: nat)
    requires r in s.reviews && s.reviews[r].wrote && !e.Restart?
    ensures r in Next(s, e).reviews && Next(s, e).reviews[r].wrote
  {
    hide ReviewEffect, FilingEffect, ReadForFiling;
  }

  lemma {:induction false} WroteForGood(s: State, events: seq<Event>, i: nat, r: nat)
    requires i <= |events| && r in Exec(s, events[..i]).reviews && Exec(s, events[..i]).reviews[r].wrote
    requires forall k :: i <= k < |events| ==> !events[k].Restart?
    ensures r in Exec(s, events).reviews && Exec(s, events).reviews[r].wrote
    decreases |events|
  {
    if i == |events| {
      assert events[..i] == events;
    } else {
      var front := events[..|events| - 1];
      assert front[..i] == events[..i];
      WroteForGood(s, front, i, r);
      WroteStays(Exec(s, front), events[|events| - 1], r);
    }
  }

  /** Nor does any of its steps change the tables in any way. */
  lemma LateReviewChangesNothing(db: Db, events: seq<Event>, a: nat, b: nat, i: nat)
    requires var s := Exec(Start(db), events);
      && a in s.reviews && b in s.reviews && s.reviews[a].profile == s.reviews[b].profile
      && s.reviews[a].markedAt.Some? && s.reviews[b].startedAt.Some?
      && s.reviews[a].markedAt.value < s.reviews[b].startedAt.value
    requires i < |events| && events[i].ReviewStep? && events[i].r == b
    requires forall k :: i <= k < |events| ==> !events[k].Restart?
    ensures Exec(Start(db), events[..i + 1]).db == Exec(Start(db), events[..i]).db
  {
    LateReviewNeverWrites(db, events, a, b);
    var s, t := Exec(Start(db), events[..i]), Exec(Start(db), events[..i + 1]);
    assert events[..i + 1][..i] == events[..i] && t == Next(s, events[i]);
    if t.db != s.db {
      WritesAreRecorded(s, b, events[i].ok);
      WroteForGood(Start(db), events, i + 1, b);
    }
  }

  /** The windows from the start of the check to the mark overlap. */
  ghost predicate Overlap(a: Review, b: Review) {
    && a.startedAt.Some? && a.markedAt.Some? && b.startedAt.Some? && b.markedAt.Some?
    && a.startedAt.value <= b.markedAt.value && b.startedAt.value <= a.markedAt.value
  }

  /** Any two reviews that decided the same profile overlapped; so without overlap a profile is
      decided at most once. */
  lemma DecidersOverlap(db: Db, events: seq<Event>, a: nat, b: nat)
    requires var s := Exec(Start(db), events);
      && a in s.reviews && b in s.reviews && s.reviews[a].profile == s.reviews[b].profile
      && s.reviews[a].wrote && s.reviews[b].wrote
    ensures Overlap(Exec(Start(db), events).reviews[a], Exec(Start(db), events).reviews[b])
  {
    InvAlways(db, events);
    var s := Exec(Start(db), events);
    assert Consistent(s, s.reviews[a]) && Consistent(s, s.reviews[b]);
    assert TurnedAway(s.reviews[a], s.reviews[b]) && TurnedAway(s.reviews[b], s.reviews[a]);
  }
}
